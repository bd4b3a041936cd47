/**
  PCM frames and the WAV payload of the voice service
  (nanobot/voice/service.py, `_write_wav` and `_play_wav`).

  A frame is a sequence of signed 16-bit samples.  Writing an utterance
  stores every frame's samples, frame after frame, as little-endian
  two's-complement 16-bit words in a mono, 2-byte, `sample_rate` stream;
  playing a file decodes its payload as int16 words and reshapes them by the
  file's channel count.  The RIFF header bytes themselves are not modelled:
  a file is its three header fields plus its payload.
*/
module Pcm {
  import opened Common

  type Byte = b: int | 0 <= b < 0x100
  type Sample = x: int | -0x8000 <= x < 0x8000
  type Frame = seq<Sample>

  /** All samples of an utterance, frame after frame. */
  function Flatten(frames: seq<Frame>): (s: seq<Sample>)
  {
    if frames == [] then [] else frames[0] + Flatten(frames[1..])
  }

  lemma {:induction false} FlattenAppend(a: seq<Frame>, b: seq<Frame>)
    ensures Flatten(a + b) == Flatten(a) + Flatten(b)
  {
    if a == [] {
      assert a + b == b;
    } else {
      assert (a + b)[1..] == a[1..] + b;
      FlattenAppend(a[1..], b);
    }
  }

  /** Frames of one fixed length `n` flatten to `|frames| * n` samples. */
  lemma {:induction false} FlattenLength(frames: seq<Frame>, n: nat)
    requires forall i :: 0 <= i < |frames| ==> |frames[i]| == n
    ensures |Flatten(frames)| == |frames| * n
  {
    if frames != [] {
      FlattenLength(frames[1..], n);
    }
  }

  /** One sample as two bytes, low byte first, two's complement. */
  function EncodeSample(x: Sample): (bs: seq<Byte>)
    ensures |bs| == 2
  {
    var u := if x < 0 then x + 0x10000 else x;
    [u % 0x100, u / 0x100]
  }

  /** numpy's int16 view of two little-endian bytes. */
  function DecodeSample(lo: Byte, hi: Byte): Sample
  {
    var u := lo + 0x100 * hi;
    if u >= 0x8000 then u - 0x10000 else u
  }

  /** A sample survives encoding, and two bytes survive decoding. */
  lemma SampleRoundTrip(x: Sample, lo: Byte, hi: Byte)
    ensures DecodeSample(EncodeSample(x)[0], EncodeSample(x)[1]) == x
    ensures EncodeSample(DecodeSample(lo, hi)) == [lo, hi]
  {
  }

  /** `frame.tobytes()` of an int16 array. */
  function EncodeSamples(xs: seq<Sample>): (bs: seq<Byte>)
    ensures |bs| == 2 * |xs|
  {
    if xs == [] then [] else EncodeSample(xs[0]) + EncodeSamples(xs[1..])
  }

  /** `np.frombuffer(payload, dtype=int16)` on a payload of even length. */
  function DecodeWords(bs: seq<Byte>): (xs: seq<Sample>)
    requires |bs| % 2 == 0
    ensures 2 * |xs| == |bs|
  {
    if bs == [] then [] else [DecodeSample(bs[0], bs[1])] + DecodeWords(bs[2..])
  }

  lemma {:induction false} WordsRoundTrip(xs: seq<Sample>)
    ensures DecodeWords(EncodeSamples(xs)) == xs
  {
    if xs != [] {
      var bs := EncodeSamples(xs);
      assert bs[2..] == EncodeSamples(xs[1..]);
      SampleRoundTrip(xs[0], 0, 0);
      WordsRoundTrip(xs[1..]);
    }
  }

  lemma {:induction false} BytesRoundTrip(bs: seq<Byte>)
    requires |bs| % 2 == 0
    ensures EncodeSamples(DecodeWords(bs)) == bs
  {
    if bs != [] {
      var xs := DecodeWords(bs);
      assert xs[1..] == DecodeWords(bs[2..]);
      SampleRoundTrip(0, bs[0], bs[1]);
      BytesRoundTrip(bs[2..]);
    }
  }

  /** The `writeframes` loop: each frame's bytes, in order. */
  function EncodeFrames(frames: seq<Frame>): (bs: seq<Byte>)
  {
    if frames == [] then [] else EncodeSamples(frames[0]) + EncodeFrames(frames[1..])
  }

  lemma {:induction false} EncodeSamplesAppend(a: seq<Sample>, b: seq<Sample>)
    ensures EncodeSamples(a + b) == EncodeSamples(a) + EncodeSamples(b)
  {
    if a == [] {
      assert a + b == b;
    } else {
      assert (a + b)[1..] == a[1..] + b;
      EncodeSamplesAppend(a[1..], b);
    }
  }

  /** Writing frame by frame gives the encoding of all samples concatenated in order. */
  lemma {:induction false} EncodeFramesIsFlatten(frames: seq<Frame>)
    ensures EncodeFrames(frames) == EncodeSamples(Flatten(frames))
  {
    if frames != [] {
      EncodeFramesIsFlatten(frames[1..]);
      EncodeSamplesAppend(frames[0], Flatten(frames[1..]));
    }
  }

  /** A WAV file as the service writes and reads it: header fields and payload. */
  datatype WavFile = WavFile(channels: int, sampleWidth: int, frameRate: int, payload: seq<Byte>)

  /**
    `_write_wav`: no file for an empty frame list; otherwise a mono,
    2-byte-per-sample stream at `sampleRate` whose payload is the frames'
    bytes in order.  File-system failures are not modelled.
  */
  function WriteWav(frames: seq<Frame>, sampleRate: int): (r: Option<WavFile>)
    ensures r.None? <==> frames == []
    ensures r.Some? ==>
      && r.value.channels == 1
      && r.value.sampleWidth == 2
      && r.value.frameRate == sampleRate
      && r.value.payload == EncodeSamples(Flatten(frames))
      && |r.value.payload| == 2 * |Flatten(frames)|
  {
    if frames == [] then None
    else
      EncodeFramesIsFlatten(frames);
      Some(WavFile(1, 2, sampleRate, EncodeFrames(frames)))
  }

  /**
    `data.reshape(-1, channels)`: rows of `channels` samples; an error
    (`None`) when there is no channel or the samples do not fill whole rows.
  */
  function Reshape(xs: seq<Sample>, channels: int): (rows: Option<seq<seq<Sample>>>)
    ensures rows.Some? <==> channels > 0 && |xs| % channels == 0
  {
    if channels <= 0 || |xs| % channels != 0 then None
    else Some(Rows(xs, channels))
  }

  function Rows(xs: seq<Sample>, channels: int): (rows: seq<seq<Sample>>)
    requires channels > 0 && |xs| % channels == 0
    ensures forall i :: 0 <= i < |rows| ==> |rows[i]| == channels
    ensures Flatten(rows) == xs
    decreases |xs|
  {
    if xs == [] then []
    else
      var rest := xs[channels..];
      ModSubtract(|xs|, channels);
      var tail := Rows(rest, channels);
      var rows := [xs[..channels]] + tail;
      assert rows[1..] == tail;
      assert xs == xs[..channels] + rest;
      rows
  }

  /** A non-empty whole number of rows holds at least one row, and one row fewer is still whole. */
  lemma ModSubtract(n: int, c: int)
    requires c > 0 && n % c == 0 && n > 0
    ensures n >= c && (n - c) % c == 0
  {
    var q := n / c;
    assert n == c * q;
    assert q >= 1;
    ModUnique(n - c, c, q - 1, 0);
  }

  lemma MulAtLeast(c: int, k: int)
    requires c > 0 && k >= 1
    ensures c * k >= c
  {
  }

  /** Euclidean division has one quotient/remainder pair. */
  lemma ModUnique(m: int, c: int, d: int, r: int)
    requires c > 0 && m == c * d + r && 0 <= r < c
    ensures m % c == r
  {
    var d', r' := m / c, m % c;
    assert m == c * d' + r';
    var k := d - d';
    assert c * k == r' - r;
    if k >= 1 {
      MulAtLeast(c, k);
    } else if k <= -1 {
      MulAtLeast(c, -k);
    }
  }

  /**
    `_play_wav` up to the device: the decoded, reshaped samples and the rate
    to play them at.  An odd payload length (numpy cannot view it as int16)
    or a failed reshape is an error that the source logs; `None` here.  The
    sample width recorded in the file is not consulted, as in the source.
  */
  function PlaybackData(w: WavFile): (r: Option<(seq<seq<Sample>>, int)>)
    ensures r.Some? ==>
      && r.value.1 == w.frameRate
      && |w.payload| % 2 == 0
      && Flatten(r.value.0) == DecodeWords(w.payload)
  {
    if |w.payload| % 2 != 0 then None
    else
      match Reshape(DecodeWords(w.payload), w.channels)
      case None => None
      case Some(rows) => Some((rows, w.frameRate))
  }

  /**
    Round trip: a written utterance plays back as one-sample rows holding
    exactly the utterance's samples, in order, at the rate it was written with.
  */
  lemma WavRoundTrip(frames: seq<Frame>, sampleRate: int)
    requires frames != []
    ensures WriteWav(frames, sampleRate).Some?
    ensures var r := PlaybackData(WriteWav(frames, sampleRate).value);
      && r.Some?
      && r.value.1 == sampleRate
      && |r.value.0| == |Flatten(frames)|
      && forall i :: 0 <= i < |r.value.0| ==> r.value.0[i] == [Flatten(frames)[i]]
  {
    var w := WriteWav(frames, sampleRate).value;
    EncodeFramesIsFlatten(frames);
    WordsRoundTrip(Flatten(frames));
    var xs := Flatten(frames);
    assert DecodeWords(w.payload) == xs;
    OneChannelRows(xs);
  }

  lemma {:induction false} OneChannelRows(xs: seq<Sample>)
    ensures var rows := Rows(xs, 1);
      |rows| == |xs| && forall i :: 0 <= i < |rows| ==> rows[i] == [xs[i]]
  {
    if xs != [] {
      OneChannelRows(xs[1..]);
      var rows := Rows(xs, 1);
      assert rows == [xs[..1]] + Rows(xs[1..], 1);
    }
  }
}
