/**
 * How long an MP3 plays (app/lib/reel-files.ts, `mp3Seconds`): MPEG audio layer III, whose frame headers are those of
 * section 2.4.2.3 of ISO/IEC 11172-3. Seconds are reals.
 */
module Mp3 {
  import opened Wrappers

  type Byte = x: int | 0 <= x < 256

  const BITRATES_V1: seq<nat> := [0, 32, 40, 48, 56, 64, 80, 96, 112, 128, 160, 192, 224, 256, 320]
  const BITRATES_V2: seq<nat> := [0, 8, 16, 24, 32, 40, 48, 56, 64, 80, 96, 112, 128, 144, 160]

  const SAMPLE_RATES_V1: seq<nat> := [44100, 48000, 32000]
  const SAMPLE_RATES_V2: seq<nat> := [22050, 24000, 16000]
  const SAMPLE_RATES_V25: seq<nat> := [11025, 12000, 8000]

  /** In Hz. MPEG version 1 is written 3, version 2 is 2, and 2.5 is 0. */
  function SampleRate(version: nat, index: nat): (rate: nat)
    requires index < 3
    ensures 8000 <= rate <= if version == 3 then 48000 else 24000
  {
    if version == 3 then SAMPLE_RATES_V1[index]
    else if version == 2 then SAMPLE_RATES_V2[index] else SAMPLE_RATES_V25[index]
  }

  /** In kbit/s; 0 where the header names none. */
  function Bitrate(version: nat, index: nat): nat {
    if index >= 15 then 0 else if version == 3 then BITRATES_V1[index] else BITRATES_V2[index]
  }

  datatype Frame = Frame(length: nat, samples: nat, rate: nat)

  lemma BitratesAreLarge(version: nat, index: nat)
    ensures Bitrate(version, index) == 0 || Bitrate(version, index) >= if version == 3 then 32 else 8
  {
  }

  function SlotsPerKilobit(version: nat): nat {
    if version == 3 then 144_000 else 72_000
  }

  /** The frame whose header starts with these bytes. */
  function Header(b0: Byte, b1: Byte, b2: Byte): Option<Frame> {
    var version, layer, bitrateIndex, rateIndex := b1 / 8 % 4, b1 / 2 % 4, b2 / 16, b2 / 4 % 4;
    if b0 != 0xff || b1 / 32 != 7 || version == 1 || layer != 1 || rateIndex == 3 then None else
    var bitrate, rate := Bitrate(version, bitrateIndex), SampleRate(version, rateIndex);
    if bitrate == 0 then None else
    Some(Frame(SlotsPerKilobit(version) * bitrate / rate + b2 / 2 % 2, if version == 3 then 1152 else 576, rate))
  }

  lemma AtLeast(n: nat, k: nat, rate: nat)
    requires rate > 0 && n >= k * rate
    ensures n / rate >= k
  {
    var q := n / rate;
    assert n == q * rate + n % rate && n % rate < rate;
    assert q < k ==> (q + 1) * rate <= k * rate;
  }

  lemma SlotsAreMany(version: nat, bitrate: nat, rate: nat)
    requires bitrate >= if version == 3 then 32 else 8
    requires 8000 <= rate <= if version == 3 then 48000 else 24000
    ensures SlotsPerKilobit(version) * bitrate / rate >= 24
  {
    AtLeast(SlotsPerKilobit(version) * bitrate, 24, rate);
  }

  /** Every frame is at least 24 bytes long: reading on always gets further. */
  lemma FrameAdvances(b0: Byte, b1: Byte, b2: Byte)
    ensures match Header(b0, b1, b2)
            case None => true
            case Some(frame) => frame.length >= 24 && frame.rate >= 8000 && frame.samples > 0
  {
    var version, bitrateIndex, rateIndex := b1 / 8 % 4, b2 / 16, b2 / 4 % 4;
    BitratesAreLarge(version, bitrateIndex);
    if rateIndex != 3 && Bitrate(version, bitrateIndex) > 0 {
      SlotsAreMany(version, Bitrate(version, bitrateIndex), SampleRate(version, rateIndex));
    }
  }

  /** A header's second byte: the sync bits, the version, layer III and whether a checksum follows. */
  predicate Sync(b: Byte, version: nat, noChecksum: nat) {
    var byte: int := b;
    version in {0, 2, 3} && noChecksum < 2 && byte == 0xe0 + 8 * version + 2 + noChecksum
  }

  /** Its third byte: the bit rate, the sample rate, the padding and a private bit. */
  predicate Rates(b: Byte, bitrate: nat, rate: nat, padding: nat, private: nat) {
    var byte: int := b;
    && 0 < bitrate < 15 && rate < 3 && padding < 2 && private < 2
    && byte == 16 * bitrate + 4 * rate + 2 * padding + private
  }

  lemma SyncReads(b: Byte, version: nat, noChecksum: nat)
    requires Sync(b, version, noChecksum)
    ensures b / 8 % 4 == version && b / 2 % 4 == 1 && b / 32 == 7
  {
    var byte: int := b;
    assert byte == 32 * 7 + 8 * version + 2 + noChecksum;
    assert byte / 8 == 28 + version && byte / 2 == 112 + 4 * version + 1;
  }

  lemma SyncOf(b: Byte)
    requires b / 32 == 7 && b / 2 % 4 == 1 && b / 8 % 4 != 1
    ensures exists version, noChecksum :: Sync(b, version, noChecksum)
  {
    var byte: int := b;
    var eighth := byte / 8;
    assert eighth / 4 == byte / 32;
    assert byte / 2 % 4 == byte % 8 / 2;
    assert Sync(b, eighth % 4, byte % 2);
  }

  lemma RatesRead(b: Byte, bitrate: nat, rate: nat, padding: nat, private: nat)
    requires Rates(b, bitrate, rate, padding, private)
    ensures b / 16 == bitrate && b / 4 % 4 == rate && b / 2 % 2 == padding
  {
    var byte: int := b;
    assert byte / 4 == 4 * bitrate + rate && byte / 2 == 8 * bitrate + 2 * rate + padding;
  }

  lemma RatesOf(b: Byte)
    requires 0 < b / 16 < 15 && b / 4 % 4 != 3
    ensures exists bitrate, rate, padding, private :: Rates(b, bitrate, rate, padding, private)
  {
    var byte: int := b;
    var half, quarter := byte / 2, byte / 4;
    assert half / 2 == quarter && quarter / 4 == byte / 16;
    assert Rates(b, byte / 16, quarter % 4, half % 2, byte % 2);
  }

  lemma SomeRate(version: nat, index: nat)
    ensures Bitrate(version, index) > 0 <==> 0 < index < 15
  {
  }

  /** A header is read exactly when its fields are a layer III frame's. */
  lemma HeaderExactly(b0: Byte, b1: Byte, b2: Byte)
    ensures Header(b0, b1, b2).Some? <==>
            && b0 == 0xff && (exists version, noChecksum :: Sync(b1, version, noChecksum))
            && exists bitrate, rate, padding, private :: Rates(b2, bitrate, rate, padding, private)
  {
    SomeRate(b1 / 8 % 4, b2 / 16);
    if Header(b0, b1, b2).Some? {
      SyncOf(b1);
      RatesOf(b2);
    } else if version, noChecksum :| Sync(b1, version, noChecksum) {
      SyncReads(b1, version, noChecksum);
      if bitrate, rate, padding, private :| Rates(b2, bitrate, rate, padding, private) {
        RatesRead(b2, bitrate, rate, padding, private);
      }
    }
  }

  /** In Hz: the rates of version 1, halved for version 2 and halved again for 2.5. */
  lemma RatesAreHalved(rate: nat)
    requires rate < 3
    ensures SampleRate(3, rate) == 2 * SampleRate(2, rate) == 4 * SampleRate(0, rate)
    ensures SampleRate(3, rate) == if rate == 0 then 44100 else if rate == 1 then 48000 else 32000
  {
  }

  /** It takes twice as many samples in version 1 as in the others. */
  ghost predicate TakesSamples(frame: Frame, version: nat) {
    frame.samples == if version == 3 then 1152 else 576
  }

  /** But for the padding, it is as many bytes as the bit rate, in kbit/s, gives in the time its samples take. */
  ghost predicate LastsAsLong(frame: Frame, kilobits: nat, padding: nat) {
    var bits, bytes := frame.samples * kilobits * 1000, frame.length - padding;
    bytes * 8 * frame.rate <= bits < (bytes + 1) * 8 * frame.rate
  }

  /** What the frame of a header is. */
  lemma HeaderSays(
    b1: Byte, b2: Byte, version: nat, noChecksum: nat, bitrate: nat, rate: nat, padding: nat, private: nat)
    requires Sync(b1, version, noChecksum) && Rates(b2, bitrate, rate, padding, private)
    ensures Header(0xff, b1, b2).Some?
    ensures Header(0xff, b1, b2).value.rate == SampleRate(version, rate)
    ensures TakesSamples(Header(0xff, b1, b2).value, version)
    ensures LastsAsLong(Header(0xff, b1, b2).value, Bitrate(version, bitrate), padding)
  {
    SyncReads(b1, version, noChecksum);
    RatesRead(b2, bitrate, rate, padding, private);
    SomeRate(version, bitrate);
    LengthLasts(version, Bitrate(version, bitrate), SampleRate(version, rate), padding);
  }

  lemma LengthLasts(version: nat, kilobits: nat, rate: nat, padding: nat)
    requires rate > 0
    ensures LastsAsLong(Frame(SlotsPerKilobit(version) * kilobits / rate + padding, if version == 3 then 1152 else 576,
                              rate), kilobits, padding)
  {
    Quotient(SlotsPerKilobit(version) * kilobits, rate);
  }

  lemma Quotient(n: nat, rate: nat)
    requires rate > 0
    ensures n / rate * rate <= n < (n / rate + 1) * rate
  {
  }

  // ---------- Reading a file ----------

  predicate StartsWith(bytes: seq<Byte>, at: nat, text: seq<Byte>) {
    at + |text| <= |bytes| && bytes[at..at + |text|] == text
  }

  const ID3: seq<Byte> := [0x49, 0x44, 0x33]
  const TAG: seq<Byte> := [0x54, 0x41, 0x47]

  function Low7(byte: Byte): nat {
    var value: int := byte;
    value % 128
  }

  /** Where the audio starts: after an ID3v2 tag, whose size is four times seven bits, and its footer. */
  function AudioStart(bytes: seq<Byte>): nat {
    if |bytes| >= 10 && StartsWith(bytes, 0, ID3) then
      10 + Low7(bytes[6]) * 0x20_0000 + Low7(bytes[7]) * 0x4000 + Low7(bytes[8]) * 0x80 + Low7(bytes[9])
      + (if bytes[5] / 16 % 2 == 1 then 10 else 0)
    else 0
  }

  /** Where it ends: before an ID3v1 tag. */
  function AudioEnd(bytes: seq<Byte>): nat {
    if |bytes| >= 128 && StartsWith(bytes, |bytes| - 128, TAG) then |bytes| - 128 else |bytes|
  }

  function FrameAt(bytes: seq<Byte>, at: nat, end: nat): (frame: Option<Frame>)
    requires end <= |bytes|
    ensures frame.Some? ==> at < end && frame.value.length >= 24 && frame.value.rate > 0
  {
    if at + 4 > end then None else
    FrameAdvances(bytes[at], bytes[at + 1], bytes[at + 2]);
    Header(bytes[at], bytes[at + 1], bytes[at + 2])
  }

  /** Frame after frame, each where the one before it ends. */
  function Frames(bytes: seq<Byte>, at: nat, end: nat): seq<Frame>
    requires end <= |bytes|
    decreases end - at
  {
    var frame := FrameAt(bytes, at, end);
    if frame.None? then [] else [frame.value] + Frames(bytes, at + frame.value.length, end)
  }

  function Length(frames: seq<Frame>): nat {
    if frames == [] then 0 else frames[0].length + Length(frames[1..])
  }

  function FrameSeconds(frame: Frame): real {
    if frame.rate == 0 then 0.0 else frame.samples as real / frame.rate as real
  }

  function Seconds(frames: seq<Frame>): real {
    if frames == [] then 0.0 else FrameSeconds(frames[0]) + Seconds(frames[1..])
  }

  /** The frames' time, when nearly all the audio is frames, and two at least. */
  function Plays(bytes: seq<Byte>): Option<real> {
    var start, end := AudioStart(bytes), AudioEnd(bytes);
    var frames := Frames(bytes, start, end);
    if |frames| >= 2 && start + Length(frames) >= end - 4 then Some(Seconds(frames)) else None
  }

  lemma ConsFrames(frame: Frame, rest: seq<Frame>)
    ensures Length([frame] + rest) == frame.length + Length(rest)
    ensures Seconds([frame] + rest) == FrameSeconds(frame) + Seconds(rest)
  {
    assert ([frame] + rest)[1..] == rest;
  }

  lemma FramesNext(bytes: seq<Byte>, at: nat, end: nat, frame: Frame, next: nat)
    requires end <= |bytes| && FrameAt(bytes, at, end) == Some(frame) && next == at + frame.length
    ensures Frames(bytes, at, end) == [frame] + Frames(bytes, next, end)
    ensures |Frames(bytes, at, end)| == 1 + |Frames(bytes, next, end)|
    ensures Length(Frames(bytes, at, end)) == frame.length + Length(Frames(bytes, next, end))
    ensures Seconds(Frames(bytes, at, end)) == FrameSeconds(frame) + Seconds(Frames(bytes, next, end))
  {
    ConsFrames(frame, Frames(bytes, next, end));
  }

  /** So many frames of one length in samples and one rate play for their samples over the rate. */
  lemma {:induction false} FramesTakeTheirTime(frames: seq<Frame>, samples: nat, rate: nat)
    requires rate > 0 && forall frame <- frames :: frame.samples == samples && frame.rate == rate
    ensures Seconds(frames) * rate as real == (|frames| * samples) as real
  {
    if frames != [] {
      FramesTakeTheirTime(frames[1..], samples, rate);
      assert frames[0] in frames;
      var first := FrameSeconds(frames[0]);
      assert first * rate as real == samples as real;
      assert Seconds(frames) * rate as real == first * rate as real + Seconds(frames[1..]) * rate as real;
      assert |frames| * samples == samples + |frames[1..]| * samples;
    }
  }

  /** What is read so far, and what is left to read, is all there is. */
  ghost predicate ReadTo(all: seq<Frame>, left: seq<Frame>, start: nat, at: nat, seconds: real, frames: nat) {
    && frames + |left| == |all|
    && at + Length(left) == start + Length(all)
    && seconds + Seconds(left) == Seconds(all)
    && start <= at && (frames > 0 ==> start < at)
  }

  lemma ReadOn(
    all: seq<Frame>, frame: Frame, left: seq<Frame>, start: nat, at: nat, seconds: real, frames: nat)
    requires ReadTo(all, [frame] + left, start, at, seconds, frames) && frame.length > 0
    ensures ReadTo(all, left, start, at + frame.length, seconds + FrameSeconds(frame), frames + 1)
  {
    ConsFrames(frame, left);
  }

  lemma ReadAll(all: seq<Frame>, start: nat, at: nat, seconds: real, frames: nat)
    requires ReadTo(all, [], start, at, seconds, frames)
    ensures frames == |all| && at == start + Length(all) && seconds == Seconds(all) && (frames > 0 ==> start < at)
  {
  }

  lemma NoneLeft(bytes: seq<Byte>, at: nat, end: nat)
    requires end <= |bytes| && FrameAt(bytes, at, end).None?
    ensures Frames(bytes, at, end) == []
  {
  }

  lemma FramesCons(bytes: seq<Byte>, at: nat, end: nat, frame: Frame, next: nat)
    requires end <= |bytes| && FrameAt(bytes, at, end) == Some(frame) && next == at + frame.length
    ensures Frames(bytes, at, end) == [frame] + Frames(bytes, next, end) && frame.length > 0
  {
  }

  /** So much is read of the frames from `start`, up to the one at `at`. */
  ghost predicate ReadUpTo(bytes: seq<Byte>, start: nat, end: nat, at: nat, seconds: real, frames: nat)
    requires end <= |bytes|
  {
    ReadTo(Frames(bytes, start, end), Frames(bytes, at, end), start, at, seconds, frames)
  }

  lemma ReadStep(bytes: seq<Byte>, start: nat, end: nat, at: nat, seconds: real, frames: nat, frame: Frame)
    requires end <= |bytes| && ReadUpTo(bytes, start, end, at, seconds, frames)
    requires FrameAt(bytes, at, end) == Some(frame)
    ensures frame.length > 0
    ensures ReadUpTo(bytes, start, end, at + frame.length, seconds + FrameSeconds(frame), frames + 1)
  {
    var next := at + frame.length;
    FramesCons(bytes, at, end, frame, next);
    ReadOn(Frames(bytes, start, end), frame, Frames(bytes, next, end), start, at, seconds, frames);
  }

  lemma ReadDone(bytes: seq<Byte>, start: nat, end: nat, at: nat, seconds: real, frames: nat)
    requires end <= |bytes| && ReadUpTo(bytes, start, end, at, seconds, frames) && FrameAt(bytes, at, end).None?
    ensures frames == |Frames(bytes, start, end)| && at == start + Length(Frames(bytes, start, end))
    ensures seconds == Seconds(Frames(bytes, start, end))
    ensures frames > 0 ==> start < at
  {
    NoneLeft(bytes, at, end);
    ReadAll(Frames(bytes, start, end), start, at, seconds, frames);
  }

  lemma ReadNone(bytes: seq<Byte>, start: nat, end: nat)
    requires end <= |bytes|
    ensures ReadUpTo(bytes, start, end, start, 0.0, 0)
  {
  }

  method ReadFrames(bytes: seq<Byte>, audioStart: nat, end: nat) returns (at: nat, seconds: real, frames: nat)
    requires end <= |bytes|
    ensures frames == |Frames(bytes, audioStart, end)| && at == audioStart + Length(Frames(bytes, audioStart, end))
    ensures seconds == Seconds(Frames(bytes, audioStart, end))
    ensures frames > 0 ==> audioStart < at
  {
    at, seconds, frames := audioStart, 0.0, 0;
    ReadNone(bytes, audioStart, end);
    while at + 4 <= end
      invariant ReadUpTo(bytes, audioStart, end, at, seconds, frames)
      decreases end - at
    {
      var frame := FrameAt(bytes, at, end);
      if frame.None? {
        break;
      }
      ReadStep(bytes, audioStart, end, at, seconds, frames, frame.value);
      seconds := seconds + FrameSeconds(frame.value);
      frames := frames + 1;
      at := at + frame.value.length;
    }
    ReadDone(bytes, audioStart, end, at, seconds, frames);
  }

  method Mp3Seconds(bytes: seq<Byte>) returns (result: Option<real>)
    ensures result == Plays(bytes)
  {
    var audioStart, end := AudioStart(bytes), AudioEnd(bytes);
    var at, seconds, frames := ReadFrames(bytes, audioStart, end);
    result := if frames >= 2 && at >= end - 4 && at - audioStart > 0 then Some(seconds) else None;
  }

  // ---------- A whole file ----------

  /** The bytes of one frame, header and all. */
  ghost predicate Whole(frame: seq<Byte>) {
    && |frame| >= 4 && Header(frame[0], frame[1], frame[2]).Some?
    && Header(frame[0], frame[1], frame[2]).value.length == |frame|
  }

  function HeaderOf(frame: seq<Byte>): Frame
    requires Whole(frame)
  {
    Header(frame[0], frame[1], frame[2]).value
  }

  ghost predicate AllWhole(frames: seq<seq<Byte>>) {
    forall frame <- frames :: Whole(frame)
  }

  function HeadersOf(frames: seq<seq<Byte>>): seq<Frame>
    requires AllWhole(frames)
  {
    if frames == [] then [] else [HeaderOf(frames[0])] + HeadersOf(frames[1..])
  }

  /** Four bytes, seven bits of each, the highest first. */
  predicate SevenBits(bytes: seq<Byte>, at: nat, size: nat) {
    && at + 4 <= |bytes| && size < 128 * 128 * 128 * 128
    && Low7(bytes[at]) == size / (128 * 128 * 128) && Low7(bytes[at + 1]) == size / (128 * 128) % 128
    && Low7(bytes[at + 2]) == size / 128 % 128 && Low7(bytes[at + 3]) == size % 128
  }

  /** No tag, or an ID3v2 tag: its header, as many bytes as that says, and a footer of ten bytes if that says so. */
  ghost predicate IsLeadingTag(tag: seq<Byte>) {
    tag == [] || (
      && |tag| >= 10 && StartsWith(tag, 0, ID3)
      && exists size: nat | SevenBits(tag, 6, size) :: |tag| == 10 + size + if tag[5] / 16 % 2 == 1 then 10 else 0)
  }

  lemma Digits(size: nat)
    ensures size == size / (128 * 128 * 128) * 0x20_0000 + size / (128 * 128) % 128 * 0x4000 + size / 128 % 128 * 0x80
                    + size % 128
  {
    var third, second := size / 128, size / 128 / 128;
    assert second == size / (128 * 128);
    assert second / 128 == size / (128 * 128 * 128);
  }

  lemma TagEnds(tag: seq<Byte>)
    requires IsLeadingTag(tag) && tag != []
    ensures AudioStart(tag) == |tag|
  {
    var size: nat :| SevenBits(tag, 6, size) && |tag| == 10 + size + if tag[5] / 16 % 2 == 1 then 10 else 0;
    Digits(size);
  }

  /** No tag, or an ID3v1 tag. */
  ghost predicate IsTrailingTag(tag: seq<Byte>) {
    tag == [] || (|tag| == 128 && StartsWith(tag, 0, TAG))
  }

  lemma WholeFrameIsRead(bytes: seq<Byte>, frame: seq<Byte>, rest: seq<Byte>, at: nat, end: nat, next: nat)
    requires Whole(frame) && at <= end <= |bytes| && bytes[at..end] == frame + rest && next == at + |frame|
    ensures next <= end && bytes[next..end] == rest && FrameAt(bytes, at, end) == Some(HeaderOf(frame))
  {
    assert bytes[at..end][|frame|..] == rest;
    assert forall k | 0 <= k < 4 :: bytes[at + k] == bytes[at..end][k] == frame[k];
    assert bytes[at + 0] == frame[0];
  }

  lemma {:induction false} WholeFramesAreRead(bytes: seq<Byte>, frames: seq<seq<Byte>>, at: nat, end: nat)
    requires AllWhole(frames) && at <= end <= |bytes| && bytes[at..end] == Flatten(frames)
    ensures Frames(bytes, at, end) == HeadersOf(frames) && at + Length(HeadersOf(frames)) == end
    decreases |frames|
  {
    if frames != [] {
      var frame, rest := frames[0], frames[1..];
      var next := at + |frame|;
      WholeFrameIsRead(bytes, frame, Flatten(rest), at, end, next);
      FramesNext(bytes, at, end, HeaderOf(frame), next);
      WholeFramesAreRead(bytes, rest, next, end);
      ConsFrames(HeaderOf(frame), HeadersOf(rest));
    }
  }

  lemma StartOfAudio(leading: seq<Byte>, rest: seq<Byte>)
    requires IsLeadingTag(leading) && rest != [] && rest[0] == 0xff
    ensures AudioStart(leading + rest) == |leading|
  {
    var bytes := leading + rest;
    if leading == [] {
      assert bytes[0] != ID3[0];
      assert |bytes| >= 3 ==> bytes[0..3][0] == bytes[0];
    } else {
      TagEnds(leading);
      assert forall k | 0 <= k < 10 :: bytes[k] == leading[k];
      assert bytes[0..3] == leading[0..3];
    }
  }

  lemma EndOfAudio(front: seq<Byte>, trailing: seq<Byte>)
    requires IsTrailingTag(trailing)
    requires trailing == [] ==> |front| < 128 || !StartsWith(front, |front| - 128, TAG)
    ensures AudioEnd(front + trailing) == |front|
  {
    if trailing == [] {
      assert front + trailing == front;
    } else {
      assert (front + trailing)[|front|..|front| + 3] == trailing[0..3];
    }
  }

  /**
   * Two or more whole frames, with or without tags before and after, play for the sum of their samples over their
   * rates.
   */
  lemma WholeFilePlays(leading: seq<Byte>, frames: seq<seq<Byte>>, trailing: seq<Byte>)
    requires AllWhole(frames) && |frames| >= 2 && IsLeadingTag(leading) && IsTrailingTag(trailing)
    requires var front := leading + Flatten(frames);
             trailing == [] ==> |front| < 128 || !StartsWith(front, |front| - 128, TAG)
    ensures Plays(leading + Flatten(frames) + trailing) == Some(Seconds(HeadersOf(frames)))
  {
    var audio := Flatten(frames);
    var bytes := leading + audio + trailing;
    FirstByte(frames);
    Bounds(leading, audio, trailing);
    assert bytes[|leading|..|leading + audio|] == audio;
    WholeFramesAreRead(bytes, frames, |leading|, |leading + audio|);
    HeadersCount(frames);
  }

  lemma FirstByte(frames: seq<seq<Byte>>)
    requires AllWhole(frames) && frames != []
    ensures Flatten(frames) != [] && Flatten(frames)[0] == 0xff
  {
    assert Whole(frames[0]);
  }

  lemma Bounds(leading: seq<Byte>, audio: seq<Byte>, trailing: seq<Byte>)
    requires IsLeadingTag(leading) && IsTrailingTag(trailing) && audio != [] && audio[0] == 0xff
    requires trailing == [] ==> |leading + audio| < 128 || !StartsWith(leading + audio, |leading + audio| - 128, TAG)
    ensures AudioStart(leading + audio + trailing) == |leading|
    ensures AudioEnd(leading + audio + trailing) == |leading + audio|
  {
    assert leading + audio + trailing == leading + (audio + trailing);
    StartOfAudio(leading, audio + trailing);
    EndOfAudio(leading + audio, trailing);
  }

  lemma {:induction false} HeadersCount(frames: seq<seq<Byte>>)
    requires AllWhole(frames)
    ensures |HeadersOf(frames)| == |frames|
  {
    if frames != [] {
      HeadersCount(frames[1..]);
    }
  }

  // ---------- Nothing else plays ----------

  /** Each frame starts where the one before it ends, and the last ends there. */
  ghost predicate Chained(bytes: seq<Byte>, end: nat, starts: seq<nat>, at: nat, stop: nat)
    requires end <= |bytes|
    decreases |starts|
  {
    if starts == [] then at == stop else
    && starts[0] == at && FrameAt(bytes, at, end).Some?
    && Chained(bytes, end, starts[1..], at + FrameAt(bytes, at, end).value.length, stop)
  }

  function PlayedAt(bytes: seq<Byte>, end: nat, starts: seq<nat>): real
    requires end <= |bytes|
  {
    if starts == [] then 0.0 else
    var frame := FrameAt(bytes, starts[0], end);
    (if frame.Some? then FrameSeconds(frame.value) else 0.0) + PlayedAt(bytes, end, starts[1..])
  }

  lemma ChainOne(bytes: seq<Byte>, end: nat, starts: seq<nat>, at: nat, next: nat, stop: nat)
    requires end <= |bytes| && FrameAt(bytes, at, end).Some? && next == at + FrameAt(bytes, at, end).value.length
    requires starts != [] && starts[0] == at && Chained(bytes, end, starts[1..], next, stop)
    ensures Chained(bytes, end, starts, at, stop)
  {
  }

  lemma PlayOne(bytes: seq<Byte>, end: nat, starts: seq<nat>)
    requires end <= |bytes| && starts != [] && FrameAt(bytes, starts[0], end).Some?
    ensures PlayedAt(bytes, end, starts)
         == FrameSeconds(FrameAt(bytes, starts[0], end).value) + PlayedAt(bytes, end, starts[1..])
  {
  }

  lemma NoFrames(bytes: seq<Byte>, at: nat, end: nat)
    requires end <= |bytes| && FrameAt(bytes, at, end).None?
    ensures Frames(bytes, at, end) == [] && Chained(bytes, end, [], at, at) && PlayedAt(bytes, end, []) == 0.0
  {
  }

  lemma {:induction false} FramesAreChained(bytes: seq<Byte>, at: nat, end: nat) returns (starts: seq<nat>, stop: nat)
    requires end <= |bytes|
    ensures Chained(bytes, end, starts, at, stop) && FrameAt(bytes, stop, end).None?
    ensures |starts| == |Frames(bytes, at, end)| && stop == at + Length(Frames(bytes, at, end))
    ensures PlayedAt(bytes, end, starts) == Seconds(Frames(bytes, at, end))
    decreases end - at
  {
    var frame := FrameAt(bytes, at, end);
    if frame.None? {
      NoFrames(bytes, at, end);
      return [], at;
    }
    var next := at + frame.value.length;
    FramesNext(bytes, at, end, frame.value, next);
    var rest: seq<nat>;
    rest, stop := FramesAreChained(bytes, next, end);
    starts := [at] + rest;
    assert starts[1..] == rest;
    ChainOne(bytes, end, starts, at, next, stop);
    PlayOne(bytes, end, starts);
  }

  /**
   * Whatever plays is two or more frames one right after the other, from the start of the audio until no frame follows,
   * with at most four bytes left before its end.
   */
  lemma OnlyFramesPlay(bytes: seq<Byte>) returns (starts: seq<nat>, stop: nat)
    ensures Chained(bytes, AudioEnd(bytes), starts, AudioStart(bytes), stop)
    ensures FrameAt(bytes, stop, AudioEnd(bytes)).None?
    ensures Plays(bytes).Some? <==> |starts| >= 2 && stop + 4 >= AudioEnd(bytes)
    ensures Plays(bytes).Some? ==> Plays(bytes).value == PlayedAt(bytes, AudioEnd(bytes), starts)
  {
    starts, stop := FramesAreChained(bytes, AudioStart(bytes), AudioEnd(bytes));
  }
}
