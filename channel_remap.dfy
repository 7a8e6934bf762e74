/** The channel adjustment of the feed task of `app_sr.c`: the I2S capture
    delivers two interleaved channels, the front end wants three (two
    microphones and a zeroed reference). The buffer holds `3 * chunk` samples;
    the first `2 * chunk` are the capture, and the loop widens them in place,
    last frame first, so that no capture sample is overwritten before it is
    read. */
module ChannelRemap {
  import opened Esp

  /** `feed_channel`: channels per frame handed to the front end. */
  const FeedChannels := 3
  /** `I2S_CHANNEL_NUM`: channels per frame delivered by the capture. */
  const I2sChannels := 2

  /** The three-channel stream for a two-channel capture of `frames`
      frames: each pair of samples becomes the pair followed by a zero. */
  function Widen(two: seq<int16>, frames: nat): (r: seq<int16>)
    requires |two| == I2sChannels * frames
    ensures |r| == FeedChannels * frames
  {
    seq(FeedChannels * frames, j requires 0 <= j < FeedChannels * frames =>
      if j % 3 == 2 then 0 else two[2 * (j / 3) + j % 3])
  }

  /** The three samples of frame i of the widened stream. */
  lemma WidenFrame(two: seq<int16>, frames: nat, i: nat)
    requires |two| == I2sChannels * frames && i < frames
    ensures Widen(two, frames)[3 * i] == two[2 * i]
    ensures Widen(two, frames)[3 * i + 1] == two[2 * i + 1]
    ensures Widen(two, frames)[3 * i + 2] == 0
  {
    assert (3 * i) / 3 == i && (3 * i) % 3 == 0;
    assert (3 * i + 1) / 3 == i && (3 * i + 1) % 3 == 1;
    assert (3 * i + 2) % 3 == 2;
  }

  /** Frame k of `s` is frame k of the capture `two`, widened. */
  ghost predicate FrameWidened(s: seq<int16>, two: seq<int16>, k: nat)
    requires 3 * k + 2 < |s| && 2 * k + 1 < |two|
  {
    s[3 * k] == two[2 * k] && s[3 * k + 1] == two[2 * k + 1] && s[3 * k + 2] == 0
  }

  /** Conversely to `WidenFrame`, a stream whose every frame is widened from
      the capture is the widened capture. */
  lemma WidenFromFrames(s: seq<int16>, two: seq<int16>, frames: nat)
    requires |s| == FeedChannels * frames && |two| == I2sChannels * frames
    requires forall k :: 0 <= k < frames ==> FrameWidened(s, two, k)
    ensures s == Widen(two, frames)
  {
    forall j | 0 <= j < |s|
      ensures s[j] == Widen(two, frames)[j]
    {
      var k := j / 3;
      assert FrameWidened(s, two, k);
      assert j == 3 * k + j % 3;
    }
  }

  /** The state of the remap loop before it handles frame i: nothing
      below frame i + 1 is written yet, and every frame above i is widened. */
  ghost predicate RemapLoop(s: seq<int16>, orig: seq<int16>, chunk: nat, i: int)
    requires |s| == |orig| == FeedChannels * chunk && -1 <= i < chunk
  {
    && (forall j :: 0 <= j < 3 * (i + 1) ==> s[j] == orig[j])
    && (forall k :: i < k < chunk ==> FrameWidened(s, orig, k))
  }

  /** One pass of the loop: frame i is written from the capture samples it
      reads, which no earlier pass has overwritten. */
  lemma RemapStep(s: seq<int16>, orig: seq<int16>, chunk: nat, i: nat)
    requires |s| == |orig| == FeedChannels * chunk && i < chunk
    requires RemapLoop(s, orig, chunk, i)
    ensures var t := s[3 * i + 2 := 0][3 * i + 1 := s[2 * i + 1]][3 * i := s[2 * i]];
      RemapLoop(t, orig, chunk, i - 1)
  {
    var t := s[3 * i + 2 := 0][3 * i + 1 := s[2 * i + 1]][3 * i := s[2 * i]];
    assert FrameWidened(t, orig, i);
    forall k | i < k < chunk
      ensures FrameWidened(t, orig, k)
    {
      assert FrameWidened(s, orig, k);
    }
  }

  /** Lines 71-75. The widened stream replaces the whole buffer; only capture
      samples (indices below `2 * chunk`) are read, and each is read before
      any write reaches it. */
  method RemapInPlace(buf: array<int16>, chunk: nat)
    requires buf.Length == FeedChannels * chunk
    modifies buf
    ensures buf[..] == Widen(old(buf[..I2sChannels * chunk]), chunk)
  {
    ghost var orig := buf[..];
    var i: int := chunk - 1;
    while i >= 0
      invariant -1 <= i < chunk
      invariant RemapLoop(buf[..], orig, chunk, i)
    {
      ghost var before := buf[..];
      buf[i * 3 + 2] := 0;
      buf[i * 3 + 1] := buf[i * 2 + 1];
      buf[i * 3 + 0] := buf[i * 2 + 0];
      assert buf[..] == before[3 * i + 2 := 0][3 * i + 1 := before[2 * i + 1]][3 * i := before[2 * i]];
      RemapStep(before, orig, chunk, i);
      i := i - 1;
    }
    forall k | 0 <= k < chunk
      ensures FrameWidened(buf[..], orig[..2 * chunk], k)
    {
      assert FrameWidened(buf[..], orig, k);
    }
    WidenFromFrames(buf[..], orig[..2 * chunk], chunk);
  }

  /** The buffer after a read: a successful read overwrites the capture part,
      a failed one (whose result the loop ignores) leaves the buffer as it was. */
  function AfterRead(buf: seq<int16>, read: Option<seq<int16>>): (r: seq<int16>)
    ensures |r| == |buf|
  {
    if read.Some? && |read.value| <= |buf| then read.value + buf[|read.value|..] else buf
  }

  /** The frame fed in one iteration, from the buffer left by the previous one. */
  function FeedOnce(cur: seq<int16>, chunk: nat, read: Option<seq<int16>>): (f: seq<int16>)
    requires |cur| == FeedChannels * chunk
    ensures |f| == FeedChannels * chunk
  {
    Widen(AfterRead(cur, read)[..I2sChannels * chunk], chunk)
  }

  /** The buffer after the first `n` passes of the feed loop, starting from
      `cur`; the frame fed in pass `k` is the buffer after `k + 1` passes. */
  function BufferAfter(cur: seq<int16>, chunk: nat, captures: seq<Option<seq<int16>>>, n: nat): (b: seq<int16>)
    requires |cur| == FeedChannels * chunk && n <= |captures|
    ensures |b| == FeedChannels * chunk
    decreases n
  {
    if n == 0 then cur
    else FeedOnce(BufferAfter(cur, chunk, captures, n - 1), chunk, captures[n - 1])
  }

  /** The frames fed in the first `n` passes: pass k feeds the buffer as
      it stands after k + 1 passes. */
  function FedFrames(cur: seq<int16>, chunk: nat, captures: seq<Option<seq<int16>>>, n: nat): (fed: seq<seq<int16>>)
    requires |cur| == FeedChannels * chunk && n <= |captures|
    ensures |fed| == n
    ensures forall k :: 0 <= k < n ==> |fed[k]| == FeedChannels * chunk
  {
    seq(n, k requires 0 <= k < n => BufferAfter(cur, chunk, captures, k + 1))
  }

  /** A frame fed after a successful read depends on that read alone: its
      frame i is the two captured samples of frame i and a zero. */
  lemma FreshReadFrame(cur: seq<int16>, chunk: nat, d: seq<int16>, i: nat)
    requires |cur| == FeedChannels * chunk && |d| == I2sChannels * chunk && i < chunk
    ensures var f := FeedOnce(cur, chunk, Some(d));
      f[3 * i] == d[2 * i] && f[3 * i + 1] == d[2 * i + 1] && f[3 * i + 2] == 0
  {
    assert AfterRead(cur, Some(d))[..2 * chunk] == d;
    WidenFrame(d, chunk, i);
  }

  /** After a successful read the buffer no longer depends on what it held
      before: two runs that differ in their starting contents (and in every
      earlier capture) feed the same frame from then on. */
  lemma FreshReadForgetsHistory(cur1: seq<int16>, cur2: seq<int16>, chunk: nat,
                                captures1: seq<Option<seq<int16>>>, captures2: seq<Option<seq<int16>>>, k: nat)
    requires |cur1| == FeedChannels * chunk && |cur2| == FeedChannels * chunk
    requires k < |captures1| && k < |captures2| && captures1[k] == captures2[k]
    requires captures1[k].Some? && |captures1[k].value| == I2sChannels * chunk
    ensures BufferAfter(cur1, chunk, captures1, k + 1) == BufferAfter(cur2, chunk, captures2, k + 1)
  {
    var d := captures1[k].value;
    assert AfterRead(BufferAfter(cur1, chunk, captures1, k), Some(d))[..2 * chunk] == d;
    assert AfterRead(BufferAfter(cur2, chunk, captures2, k), Some(d))[..2 * chunk] == d;
  }

  /** After a failed read the buffer still holds the previous three-channel
      frame, and the loop widens its first `2 * chunk` samples again: the
      frame fed is not the previous frame but a re-widened copy of it. */
  lemma FailedReadRewidens(cur: seq<int16>, chunk: nat, captures: seq<Option<seq<int16>>>, k: nat)
    requires |cur| == FeedChannels * chunk
    requires 0 < k < |captures| && captures[k].None?
    ensures BufferAfter(cur, chunk, captures, k + 1)
      == Widen(BufferAfter(cur, chunk, captures, k)[..I2sChannels * chunk], chunk)
  {
  }

  /** An example of the above with two frames: the previous frame
      `[1, 2, 0, 3, 4, 0]` is fed again as `[1, 2, 0, 0, 3, 0]`. */
  lemma FailedReadExample()
    ensures var captures: seq<Option<seq<int16>>> := [Some([1, 2, 3, 4]), None];
      && BufferAfter([0, 0, 0, 0, 0, 0], 2, captures, 1) == [1, 2, 0, 3, 4, 0]
      && BufferAfter([0, 0, 0, 0, 0, 0], 2, captures, 2) == [1, 2, 0, 0, 3, 0]
  {
    var captures: seq<Option<seq<int16>>> := [Some([1, 2, 3, 4]), None];
    var f1: seq<int16> := [1, 2, 0, 3, 4, 0];
    assert FeedOnce([0, 0, 0, 0, 0, 0], 2, Some([1, 2, 3, 4])) == f1 by {
      assert AfterRead([0, 0, 0, 0, 0, 0], Some([1, 2, 3, 4]))[..4] == [1, 2, 3, 4];
      WidenFrame([1, 2, 3, 4], 2, 0);
      WidenFrame([1, 2, 3, 4], 2, 1);
    }
    assert BufferAfter([0, 0, 0, 0, 0, 0], 2, captures, 1) == f1;
    assert FeedOnce(f1, 2, None) == [1, 2, 0, 0, 3, 0] by {
      assert f1[..4] == [1, 2, 0, 3];
      WidenFrame([1, 2, 0, 3], 2, 0);
      WidenFrame([1, 2, 0, 3], 2, 1);
    }
  }

}
