/**
 * The audio controller of the reader: a single-slot player over a Web Audio
 * context, and the decoder that turns the speech service's raw 16-bit PCM into
 * a one-channel buffer of samples in [-1, 1).
 *
 * The type parameter `C` is the completion callback a caller hands to
 * PlayBuffer; the controller only stores it and hands it back when the engine
 * delivers the source's `ended` event.
 */
module Audio {
  import opened Wrappers

  /** A byte as a Uint8Array holds it. */
  newtype uint8 = x: int | 0 <= x < 256

  /** The context is created with `sampleRate: 24000` and decodeRawPCM is called with it. */
  const SampleRate: int := 24000

  /** The 16-bit two's-complement sample of an Int16Array view, little-endian byte order. */
  function Int16LE(lo: uint8, hi: uint8): (v: int)
    ensures -32768 <= v < 32768
  {
    var u := lo as int + 256 * hi as int;
    if u >= 32768 then u - 65536 else u
  }

  /** The sample taken modulo 2^16 is the unsigned value of the two bytes. */
  lemma Int16LEBits(lo: uint8, hi: uint8)
    ensures (Int16LE(lo, hi) + 65536) % 65536 == lo as int + 256 * hi as int
  {
    var u := lo as int + 256 * hi as int;
    assert u < 65536;
    if u >= 32768 {
      assert Int16LE(lo, hi) + 65536 == u;
    } else {
      assert Int16LE(lo, hi) + 65536 == u + 65536;
    }
  }

  /** The low byte of a 16-bit sample in two's complement. */
  function LowByte(v: int): uint8
    requires -32768 <= v < 32768
  {
    ((v + 65536) % 256) as uint8
  }

  /** The high byte of a 16-bit sample in two's complement. */
  function HighByte(v: int): uint8
    requires -32768 <= v < 32768
  {
    (((v + 65536) % 65536) / 256) as uint8
  }

  /** Splitting a sample into its two bytes and reading them back gives the sample. */
  lemma SampleRoundTrip(v: int)
    requires -32768 <= v < 32768
    ensures Int16LE(LowByte(v), HighByte(v)) == v
  {
    var u := (v + 65536) % 65536;
    assert u == (if v < 0 then v + 65536 else v);
    assert (v + 65536) % 256 == u % 256;
    assert u == u % 256 + 256 * (u / 256);
  }

  /** Reading two bytes as a sample and splitting it again gives the same two bytes. */
  lemma BytesRoundTrip(lo: uint8, hi: uint8)
    ensures LowByte(Int16LE(lo, hi)) == lo && HighByte(Int16LE(lo, hi)) == hi
  {
    var u := lo as int + 256 * hi as int;
    Int16LEBits(lo, hi);
    assert u % 256 == lo as int;
    assert u / 256 == hi as int;
  }

  /** `int16 / 32768.0`: a sample scaled into [-1, 1). */
  function Normalize(v: int): (r: real)
    requires -32768 <= v < 32768
    ensures -1.0 <= r < 1.0
    ensures (r < 0.0) == (v < 0)
  {
    v as real / 32768.0
  }

  /** The one-channel buffer decodeRawPCM builds: its sample rate and its channel data. */
  datatype AudioBuffer = AudioBuffer(sampleRate: int, channelData: seq<real>)

  /**
   * The buffer that decoding `data` yields, or None where decodeRawPCM throws: an odd byte
   * count cannot form an Int16Array, and a zero frame count is refused by createBuffer.
   */
  function DecodePcm(data: seq<uint8>): (r: Option<AudioBuffer>)
    ensures r.Some? <==> |data| > 0 && |data| % 2 == 0
    ensures r.Some? ==> r.value.sampleRate == SampleRate && |r.value.channelData| == |data| / 2
  {
    if |data| % 2 != 0 || |data| == 0 then None
    else Some(AudioBuffer(SampleRate,
      seq(|data| / 2, k requires 0 <= k < |data| / 2 => Normalize(Int16LE(data[2 * k], data[2 * k + 1])))))
  }

  /**
   * Decoding succeeds exactly on a non-empty even byte count; the buffer then has
   * one frame per byte pair, frame k is the little-endian sample of bytes 2k and 2k+1
   * scaled by 1/32768, and every frame lies in [-1, 1).
   */
  lemma DecodePcmShape(data: seq<uint8>)
    ensures DecodePcm(data).Some? <==> |data| > 0 && |data| % 2 == 0
    ensures DecodePcm(data).Some? ==>
      DecodePcm(data).value.sampleRate == SampleRate
      && |DecodePcm(data).value.channelData| == |data| / 2
      && (forall k :: 0 <= k < |data| / 2 ==>
            DecodePcm(data).value.channelData[k] == Normalize(Int16LE(data[2 * k], data[2 * k + 1])))
      && (forall k :: 0 <= k < |data| / 2 ==> -1.0 <= DecodePcm(data).value.channelData[k] < 1.0)
  {
    if |data| > 0 && |data| % 2 == 0 {
      var frames := DecodePcm(data).value.channelData;
      forall k | 0 <= k < |data| / 2 ensures -1.0 <= frames[k] < 1.0 {
        assert frames[k] == Normalize(Int16LE(data[2 * k], data[2 * k + 1]));
      }
    }
  }

  /** The little-endian byte image of a sequence of 16-bit samples. */
  function EncodePcm(samples: seq<int>): (data: seq<uint8>)
    requires forall k :: 0 <= k < |samples| ==> -32768 <= samples[k] < 32768
    ensures |data| == 2 * |samples|
    ensures forall k :: 0 <= k < |samples| ==> data[2 * k] == LowByte(samples[k]) && data[2 * k + 1] == HighByte(samples[k])
  {
    var data := seq(2 * |samples|, i requires 0 <= i < 2 * |samples| =>
      if i % 2 == 0 then LowByte(samples[i / 2]) else HighByte(samples[i / 2]));
    assert forall k :: 0 <= k < |samples| ==> data[2 * k] == LowByte(samples[k]) && data[2 * k + 1] == HighByte(samples[k]) by {
      forall k | 0 <= k < |samples|
        ensures data[2 * k] == LowByte(samples[k]) && data[2 * k + 1] == HighByte(samples[k])
      {
        assert (2 * k) % 2 == 0 && (2 * k) / 2 == k;
        assert (2 * k + 1) % 2 == 1 && (2 * k + 1) / 2 == k;
      }
    }
    data
  }

  /** Decoding the byte image of a non-empty sample sequence gives back those samples, scaled. */
  lemma DecodeEncodeRoundTrip(samples: seq<int>)
    requires forall k :: 0 <= k < |samples| ==> -32768 <= samples[k] < 32768
    requires |samples| > 0
    ensures DecodePcm(EncodePcm(samples))
      == Some(AudioBuffer(SampleRate, seq(|samples|, k requires 0 <= k < |samples| => Normalize(samples[k]))))
  {
    var data := EncodePcm(samples);
    assert |data| / 2 == |samples|;
    DecodePcmShape(data);
    var expected := seq(|samples|, k requires 0 <= k < |samples| => Normalize(samples[k]));
    var got := DecodePcm(data).value.channelData;
    assert |got| == |expected|;
    forall k | 0 <= k < |samples| ensures got[k] == expected[k] {
      assert data[2 * k] == LowByte(samples[k]) && data[2 * k + 1] == HighByte(samples[k]);
      assert got[k] == Normalize(Int16LE(data[2 * k], data[2 * k + 1]));
      SampleRoundTrip(samples[k]);
    }
    assert got == expected;
    assert DecodePcm(data) == Some(AudioBuffer(SampleRate, got));
  }

  /** `charCodeAt` of a character of the decoded base64 string, stored into a Uint8Array (modulo 256). */
  function ByteOf(c: char): uint8 {
    ((c as int) % 256) as uint8
  }

  /** The byte array decodeAudioData fills from the decoded base64 string. */
  function BinaryBytes(binary: string): (bytes: seq<uint8>)
    ensures |bytes| == |binary|
    ensures forall i :: 0 <= i < |binary| && binary[i] as int < 256 ==> bytes[i] as int == binary[i] as int
  {
    seq(|binary|, i requires 0 <= i < |binary| => ByteOf(binary[i]))
  }

  /** An audio source node: the buffer it plays, its `onended` handler, and whether it has played to its end. */
  datatype Source<C> = Source(buffer: AudioBuffer, onEnded: C, finished: bool)

  /**
   * The `ended` events that stopping `current` schedules: Web Audio fires `ended` on a
   * source that is stopped before it finished, and stop() does not detach `onended`.
   */
  function EndedOnStop<C>(current: Option<Source<C>>): (r: seq<C>)
    ensures |r| <= 1
    ensures |r| == 1 <==> current.Some? && !current.value.finished
    ensures |r| == 1 ==> r[0] == current.value.onEnded
  {
    match current {
      case None => []
      case Some(src) => if src.finished then [] else [src.onEnded]
    }
  }

  class AudioController<C> {
    /** Set once an unlock has completed. */
    var isUnlocked: bool
    /** The state of the underlying AudioContext: `suspended` until resumed. */
    var suspended: bool
    /** The one live source, if any. */
    var currentSource: Option<Source<C>>
    /** `ended` events the engine has scheduled and not yet delivered, in order. */
    var endedQueue: seq<C>

    /** An unlocked controller's context is running. */
    predicate Valid()
      reads this
    {
      isUnlocked ==> !suspended
    }

    /** A new controller: locked, no source; browsers start the context suspended without a user gesture. */
    constructor (startsSuspended: bool)
      ensures Valid()
      ensures !isUnlocked && suspended == startsSuspended
      ensures currentSource == None && endedQueue == []
    {
      isUnlocked := false;
      suspended := startsSuspended;
      currentSource := None;
      endedQueue := [];
    }

    /**
     * unlock(): a no-op once unlocked; otherwise resumes a suspended context and marks the
     * controller unlocked. `resumeSucceeds` is the outcome of `context.resume()`; when it
     * rejects, unlock rejects (`ok` false) and the controller stays locked.
     */
    method Unlock(resumeSucceeds: bool) returns (ok: bool)
      requires Valid()
      modifies this
      ensures Valid()
      ensures old(isUnlocked) ==> ok && unchanged(this)
      ensures !old(isUnlocked) ==> ok == (!old(suspended) || resumeSucceeds)
      ensures !old(isUnlocked) ==> isUnlocked == ok && suspended == (old(suspended) && !ok)
      ensures currentSource == old(currentSource) && endedQueue == old(endedQueue)
    {
      if isUnlocked {
        return true;
      }
      if suspended {
        if !resumeSucceeds {
          return false;
        }
        suspended := false;
      }
      isUnlocked := true;
      ok := true;
    }

    /**
     * stop(): stops and forgets the live source. A source stopped before its end still
     * fires `ended`, so its handler joins the queue of pending events.
     */
    method Stop()
      modifies this
      ensures currentSource == None
      ensures endedQueue == old(endedQueue) + EndedOnStop(old(currentSource))
      ensures isUnlocked == old(isUnlocked) && suspended == old(suspended)
      ensures old(currentSource) == None ==> unchanged(this)
    {
      if currentSource.Some? {
        endedQueue := endedQueue + EndedOnStop(currentSource);
        currentSource := None;
      }
    }

    /** playBuffer(): stops the live source, then starts a new one; it becomes the only live source. */
    method PlayBuffer(buffer: AudioBuffer, onEnded: C)
      modifies this
      ensures currentSource == Some(Source(buffer, onEnded, false))
      ensures endedQueue == old(endedQueue) + EndedOnStop(old(currentSource))
      ensures isUnlocked == old(isUnlocked) && suspended == old(suspended)
    {
      Stop();
      currentSource := Some(Source(buffer, onEnded, false));
    }

    /**
     * The engine plays the live source to its end: its `ended` event is scheduled once,
     * and the source stays the controller's current source.
     */
    method SourceEnds()
      modifies this
      ensures old(currentSource).Some? && !old(currentSource).value.finished ==>
        currentSource == Some(old(currentSource).value.(finished := true))
        && endedQueue == old(endedQueue) + [old(currentSource).value.onEnded]
      ensures !(old(currentSource).Some? && !old(currentSource).value.finished) ==> unchanged(this)
      ensures isUnlocked == old(isUnlocked) && suspended == old(suspended)
    {
      if currentSource.Some? && !currentSource.value.finished {
        endedQueue := endedQueue + [currentSource.value.onEnded];
        currentSource := Some(currentSource.value.(finished := true));
      }
    }

    /** The engine delivers the oldest scheduled `ended` event: its handler is returned to be run. */
    method NextEnded() returns (handler: Option<C>)
      modifies this
      ensures old(endedQueue) == [] ==> handler == None && unchanged(this)
      ensures old(endedQueue) != [] ==> handler == Some(old(endedQueue)[0]) && endedQueue == old(endedQueue)[1..]
      ensures isUnlocked == old(isUnlocked) && suspended == old(suspended) && currentSource == old(currentSource)
    {
      if endedQueue == [] {
        return None;
      }
      handler := Some(endedQueue[0]);
      endedQueue := endedQueue[1..];
    }

    /**
     * decodeAudioData(): copies the decoded base64 string into a byte array, one
     * `charCodeAt` per character, then decodes the bytes as raw PCM.
     */
    method DecodeAudioData(binary: string) returns (r: Option<AudioBuffer>)
      ensures r == DecodePcm(BinaryBytes(binary))
      ensures r.Some? <==> |binary| > 0 && |binary| % 2 == 0
    {
      var len := |binary|;
      var bytes := new uint8[len];
      var i := 0;
      while i < len
        invariant 0 <= i <= len
        invariant forall j :: 0 <= j < i ==> bytes[j] == ByteOf(binary[j])
      {
        bytes[i] := ByteOf(binary[i]);
        i := i + 1;
      }
      r := DecodeRawPcm(bytes);
      assert bytes[..] == BinaryBytes(binary);
      DecodePcmShape(bytes[..]);
    }

    /**
     * decodeRawPCM(data, 24000, 1): views the bytes as Int16 samples and fills the one
     * channel of a fresh buffer with each sample divided by 32768.
     */
    method DecodeRawPcm(data: array<uint8>) returns (r: Option<AudioBuffer>)
      ensures r == DecodePcm(data[..])
    {
      if data.Length % 2 != 0 {
        return None;
      }
      var frameCount := data.Length / 2;
      if frameCount == 0 {
        return None;
      }
      var channelData := new real[frameCount];
      var i := 0;
      while i < frameCount
        invariant 0 <= i <= frameCount
        invariant forall k :: 0 <= k < i ==> channelData[k] == Normalize(Int16LE(data[2 * k], data[2 * k + 1]))
      {
        channelData[i] := Normalize(Int16LE(data[2 * i], data[2 * i + 1]));
        i := i + 1;
      }
      assert channelData[..] == DecodePcm(data[..]).value.channelData;
      r := Some(AudioBuffer(SampleRate, channelData[..]));
    }
  }
}
