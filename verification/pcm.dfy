/** Decoding of the narration payload: raw bytes read as 16-bit signed
    little-endian PCM, de-interleaved into one sample sequence per channel
    and normalised by 32768 (App.tsx, `decodeAudioData`). */
module Pcm {

  type Byte = x: int | 0 <= x < 256

  /** Smallest and largest values of a signed 16-bit sample. */
  const MinSample: int := -32768
  const MaxSample: int := 32767

  /** The divisor that maps a sample into [-1, 1). */
  const Scale: real := 32768.0

  /** The sample rate the narration is decoded at, in frames per second. */
  const NarrationRate: nat := 24000

  /** The channel count the narration is decoded with (mono). */
  const NarrationChannels: nat := 1

  /** Two bytes, low byte first, read as a two's-complement 16-bit integer. */
  function Int16Le(lo: Byte, hi: Byte): (v: int)
    ensures MinSample <= v <= MaxSample
    ensures (v < 0) == (hi >= 128)
  {
    var u := lo + 256 * hi;
    if u >= 32768 then u - 65536 else u
  }

  /** The bytes a 16-bit sample is stored as, low byte first. */
  function EncodeInt16Le(v: int): (bytes: (Byte, Byte))
    requires MinSample <= v <= MaxSample
  {
    var u := if v < 0 then v + 65536 else v;
    (u % 256, u / 256)
  }

  /** Reading back the two bytes of an encoded sample yields the sample. */
  lemma DecodeEncode(v: int)
    requires MinSample <= v <= MaxSample
    ensures var (lo, hi) := EncodeInt16Le(v); Int16Le(lo, hi) == v
  {
  }

  /** Every pair of bytes is the encoding of the sample it decodes to, so the
      reading is a bijection between byte pairs and 16-bit samples. */
  lemma EncodeDecode(lo: Byte, hi: Byte)
    ensures EncodeInt16Le(Int16Le(lo, hi)) == (lo, hi)
  {
  }

  /** The number of 16-bit samples in a byte buffer (`Int16Array` length). */
  function SampleCount(data: seq<Byte>): nat {
    |data| / 2
  }

  /** The `k`-th 16-bit sample of the buffer, in interleaved order. */
  function SampleAt(data: seq<Byte>, k: nat): (v: int)
    requires k < SampleCount(data)
    ensures MinSample <= v <= MaxSample
  {
    Int16Le(data[2 * k], data[2 * k + 1])
  }

  /** The number of frames: samples divided by the channel count. */
  function FrameCount(data: seq<Byte>, numChannels: nat): (n: nat)
    requires numChannels > 0
    ensures n * numChannels <= SampleCount(data) < (n + 1) * numChannels
  {
    SampleCount(data) / numChannels
  }

  /** Frame `i` of channel `c` sits at interleaved index `i * numChannels + c`,
      which is always inside the sample buffer. */
  lemma InterleavedIndexInRange(data: seq<Byte>, numChannels: nat, i: nat, c: nat)
    requires numChannels > 0 && c < numChannels && i < FrameCount(data, numChannels)
    ensures i * numChannels + c < SampleCount(data)
  {
    var n := FrameCount(data, numChannels);
    assert i * numChannels + c < (i + 1) * numChannels;
    assert (i + 1) * numChannels <= n * numChannels by {
      MulMonotone(i + 1, n, numChannels);
    }
  }

  lemma MulMonotone(a: nat, b: nat, k: nat)
    requires a <= b
    ensures a * k <= b * k
  {
  }

  /** The normalised value of frame `i` of channel `c`. */
  function Normalised(data: seq<Byte>, numChannels: nat, i: nat, c: nat): (x: real)
    requires numChannels > 0 && c < numChannels && i < FrameCount(data, numChannels)
    ensures -1.0 <= x < 1.0
  {
    InterleavedIndexInRange(data, numChannels, i, c);
    SampleAt(data, i * numChannels + c) as real / Scale
  }

  /** The decoded buffer as a value: channel `c`, frame `i` holds the
      normalised sample at interleaved index `i * numChannels + c`. */
  function Deinterleave(data: seq<Byte>, numChannels: nat): (channels: seq<seq<real>>)
    requires numChannels > 0
    ensures |channels| == numChannels
    ensures forall c :: 0 <= c < numChannels ==> |channels[c]| == FrameCount(data, numChannels)
  {
    var frames := FrameCount(data, numChannels);
    seq(numChannels, c requires 0 <= c < numChannels =>
      seq(frames, i requires 0 <= i < frames => Normalised(data, numChannels, i, c)))
  }

  /** The de-interleaving loop of `decodeAudioData`: one output sequence per
      channel, each holding `FrameCount` normalised samples. */
  method DecodeAudioData(data: seq<Byte>, numChannels: nat) returns (channels: seq<seq<real>>)
    requires |data| % 2 == 0
    requires numChannels > 0
    ensures |channels| == numChannels
    ensures forall c :: 0 <= c < numChannels ==> |channels[c]| == FrameCount(data, numChannels)
    ensures forall c, i :: 0 <= c < numChannels && 0 <= i < |channels[c]| ==>
      channels[c][i] == Normalised(data, numChannels, i, c)
    ensures forall c, i :: 0 <= c < numChannels && 0 <= i < |channels[c]| ==>
      -1.0 <= channels[c][i] < 1.0
    ensures channels == Deinterleave(data, numChannels)
  {
    var frames := FrameCount(data, numChannels);
    ghost var full := Deinterleave(data, numChannels);
    channels := [];
    var channel := 0;
    while channel < numChannels
      invariant 0 <= channel <= numChannels
      invariant channels == full[..channel]
    {
      var channelData := [];
      var i := 0;
      while i < frames
        invariant 0 <= i <= frames
        invariant channelData == full[channel][..i]
      {
        InterleavedIndexInRange(data, numChannels, i, channel);
        var k := i * numChannels + channel;
        channelData := channelData + [Int16Le(data[2 * k], data[2 * k + 1]) as real / Scale];
        i := i + 1;
      }
      assert channelData == full[channel];
      assert full[..channel + 1] == full[..channel] + [full[channel]];
      channels := channels + [channelData];
      channel := channel + 1;
    }
    assert full[..numChannels] == full;
  }

  /** For the mono narration, the decoded channel is exactly the payload's
      samples in order, one frame per two bytes. */
  lemma MonoIsInOrder(data: seq<Byte>, i: nat)
    requires i < FrameCount(data, NarrationChannels)
    ensures FrameCount(data, NarrationChannels) == |data| / 2
    ensures Normalised(data, NarrationChannels, i, 0) == Int16Le(data[2 * i], data[2 * i + 1]) as real / Scale
  {
  }
}
