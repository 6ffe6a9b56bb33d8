/** Two bufferevents joined back to back, with high watermarks on what they read. */
module BufferPair {
  import opened Bytes

  /** One direction of a pair. At the sending end: what waits to be sent, whether writing is enabled, and
      whether it is suspended. At the receiving end: what has arrived, whether reading is enabled, whether
      it is suspended for the watermark or for anything else, and the high watermark, where 0 is none. */
  datatype Flow = Flow(output: seq<u8>, writeOn: bool, writeHeld: bool,
                       input: seq<u8>, readOn: bool, wm: bool, readHeld: bool, high: nat)

  function Min(a: nat, b: nat): nat {
    if a <= b then a else b
  }

  /** Reading is suspended for the watermark exactly when the input has reached it. */
  predicate Settled(f: Flow) {
    f.wm <==> f.high > 0 && |f.input| >= f.high
  }

  /** be_pair_wants_to_talk */
  predicate WantsToTalk(f: Flow) {
    f.writeOn && f.readOn && !f.wm && !f.readHeld && |f.output| > 0
  }

  /** Data waits at the sending end only for a reason. */
  predicate NotStalled(f: Flow) {
    |f.output| > 0 ==> !f.writeOn || f.writeHeld || !f.readOn || f.wm || f.readHeld
  }

  /** The input is within the watermark. */
  predicate Within(f: Flow) {
    f.high > 0 ==> |f.input| <= f.high
  }

  /** g differs from f in bytes that moved on, in order, and in the suspension for the watermark. */
  predicate Moved(f: Flow, g: Flow) {
    && g.input + g.output == f.input + f.output && |g.output| <= |f.output|
    && g == f.(output := g.output, input := g.input, wm := g.wm)
  }

  /** Whether a transfer moves everything: there is no watermark, there is room below it, or it has been
      reached and is ignored. With the input below it, it holds even when it is to be ignored. */
  predicate Empties(f: Flow, ignoreWm: bool) {
    f.high == 0 || |f.input| + |f.output| <= f.high || (ignoreWm && |f.input| >= f.high)
  }

  /** be_pair_transfer. A normal transfer does not lift the input above the watermark. */
  method Transfer(f: Flow, ignoreWm: bool) returns (g: Flow)
    requires Settled(f)
    ensures Moved(f, g) && Settled(g) && (g.output == [] || g.wm)
    ensures g.output == [] <==> f.output == [] || Empties(f, ignoreWm)
    ensures g.output != [] ==> |g.input| == if |f.input| < f.high then f.high else |f.input|
    ensures !ignoreWm ==> Within(g) || g == f
    decreases |f.output|, 0
  {
    g := f;
    var n := |f.output|;
    if f.high > 0 {
      if |f.input| < f.high {
        n := Min(f.high - |f.input|, n);
      } else if !ignoreWm {
        return;
      }
    }
    g := Move(f, n);
    if n > 0 && g.high > 0 {
      g := WatermarkCallback(g);
    }
  }

  /** evbuffer_remove_buffer, or evbuffer_add_buffer when n is all there is. */
  function Move(f: Flow, n: nat): (g: Flow)
    requires n <= |f.output|
    ensures Moved(f, g) && |g.input| == |f.input| + n && |g.output| == |f.output| - n
  {
    assert f.input + f.output[..n] + f.output[n..] == f.input + f.output;
    f.(output := f.output[n..], input := f.input + f.output[..n])
  }

  /** bufferevent_inbuf_wm_cb, called when the input has changed. */
  method WatermarkCallback(f: Flow) returns (g: Flow)
    requires f.high > 0
    ensures Moved(f, g) && Settled(g)
    ensures |f.input| >= f.high ==> g == f.(wm := true)
    ensures |f.input| < f.high ==> Within(g) && NotStalled(g)
    decreases |f.output|, 3
  {
    if |f.input| >= f.high {
      g := f.(wm := true);
    } else {
      g := UnsuspendWatermark(f);
    }
  }

  /** bufferevent_unsuspend_read_ for the watermark. */
  method UnsuspendWatermark(f: Flow) returns (g: Flow)
    requires f.high > 0 ==> |f.input| < f.high
    ensures Moved(f, g) && Settled(g) && Within(g) && NotStalled(g)
    decreases |f.output|, 2
  {
    g := f.(wm := false);
    if !g.readHeld && g.readOn {
      g := Talk(g);
    }
  }

  /** What be_pair_outbuf_cb and be_pair_enable do for a direction: a transfer, if its ends want to talk. */
  method Talk(f: Flow) returns (g: Flow)
    requires Settled(f)
    ensures Moved(f, g) && Settled(g) && (Within(f) ==> Within(g))
    ensures g.output == [] || g.wm || !WantsToTalk(f)
    ensures !WantsToTalk(f) ==> g == f
    decreases |f.output|, 1
  {
    g := f;
    if WantsToTalk(f) {
      g := Transfer(f, false);
    }
  }

  /** One direction of a pair as it lives. */
  class Pipe {
    var f: Flow
    /** Whether the ends still know of each other. */
    var linked: bool
    /** Everything ever written to the sending end, and read from the receiving end. */
    ghost var written: seq<u8>
    ghost var handed: seq<u8>

    /** What was handed out, then what has arrived, then what waits to be sent is what was written, in
        order; and nothing waits without a reason. */
    ghost predicate Valid()
      reads this
    {
      && Settled(f) && handed + f.input + f.output == written
      && (linked ==> NotStalled(f))
    }

    constructor ()
      ensures Valid() && linked && written == handed == []
    {
      f, linked, written, handed := Flow([], true, false, [], false, false, false, 0), true, [], [];
    }

    /** The flow after a change that moved bytes on. */
    method Set(g: Flow)
      requires Settled(g) && g.input + g.output == f.input + f.output && handed + f.input + f.output == written
      requires linked ==> NotStalled(g)
      modifies this`f
      ensures Valid() && f == g
    {
      Piped(handed, f.input, f.output, g.input, g.output);
      f := g;
    }

    /** bufferevent_write, which runs be_pair_outbuf_cb. */
    method Write(data: seq<u8>)
      requires Valid()
      modifies this
      ensures Valid() && written == old(written) + data && handed == old(handed) && linked == old(linked)
      ensures Within(old(f)) ==> Within(f)
    {
      f := f.(output := f.output + data);
      written := written + data;
      assert handed + f.input + f.output == written;
      if |data| > 0 && linked {
        var g := Talk(f);
        Set(g);
      }
    }

    /** bufferevent_read: takes bytes from the front, which may let more in. */
    method Read(n: nat) returns (data: seq<u8>)
      requires Valid()
      modifies this
      ensures Valid() && data == old(f.input)[..Min(n, |old(f.input)|)]
      ensures handed == old(handed) + data && written == old(written) && linked == old(linked)
      ensures Within(old(f)) ==> Within(f)
    {
      var k := Min(n, |f.input|);
      data := f.input[..k];
      Handed(handed, f.input, k);
      f := f.(input := f.input[k..]);
      handed := handed + data;
      if k > 0 && f.high > 0 {
        Drained();
      }
    }

    /** What the callback for the watermark does when bytes have been taken. */
    method Drained()
      requires f.high > 0 && handed + f.input + f.output == written
      modifies this`f
      ensures Valid() && (Within(old(f)) ==> Within(f))
    {
      if linked {
        var g := WatermarkCallback(f);
        Set(g);
      } else {
        f := f.(wm := |f.input| >= f.high);
      }
    }

    /** bufferevent_enable for reading at the receiving end. */
    method EnableReading()
      requires Valid()
      modifies this`f
      ensures Valid() && f.readOn && f.high == old(f.high) && (Within(old(f)) ==> Within(f))
    {
      var held := f.wm || f.readHeld;
      f := f.(readOn := true);
      if !held && linked {
        var g := Talk(f);
        Set(g);
      }
    }

    /** bufferevent_enable for writing at the sending end. */
    method EnableWriting()
      requires Valid()
      modifies this`f
      ensures Valid() && f.writeOn && f.high == old(f.high) && (Within(old(f)) ==> Within(f))
    {
      f := f.(writeOn := true);
      if !f.writeHeld && linked {
        var g := Talk(f);
        Set(g);
      }
    }

    /** bufferevent_disable for reading or writing. */
    method Disable(reading: bool, writing: bool)
      requires Valid()
      modifies this`f
      ensures Valid() && f == old(f).(readOn := old(f.readOn) && !reading, writeOn := old(f.writeOn) && !writing)
    {
      f := f.(readOn := f.readOn && !reading, writeOn := f.writeOn && !writing);
    }

    /** bufferevent_suspend_read_ and bufferevent_suspend_write_ for reasons other than the watermark. */
    method Suspend(reading: bool, writing: bool)
      requires Valid()
      modifies this`f
      ensures Valid() && f == old(f).(readHeld := old(f.readHeld) || reading, writeHeld := old(f.writeHeld) || writing)
    {
      f := f.(readHeld := f.readHeld || reading, writeHeld := f.writeHeld || writing);
    }

    /** bufferevent_unsuspend_read_, the last reason other than the watermark gone. */
    method UnsuspendReading()
      requires Valid()
      modifies this`f
      ensures Valid() && !f.readHeld && (Within(old(f)) ==> Within(f))
    {
      f := f.(readHeld := false);
      if !f.wm && f.readOn && linked {
        var g := Talk(f);
        Set(g);
      }
    }

    /** bufferevent_unsuspend_write_, the last reason gone. */
    method UnsuspendWriting()
      requires Valid()
      modifies this`f
      ensures Valid() && !f.writeHeld && (Within(old(f)) ==> Within(f))
    {
      f := f.(writeHeld := false);
      if f.writeOn && linked {
        var g := Talk(f);
        Set(g);
      }
    }

    /** bufferevent_setwatermark for reading. */
    method SetWatermark(high: nat)
      requires Valid()
      modifies this`f
      ensures Valid() && f.high == high && (|old(f.input)| < high ==> Within(f))
      ensures handed + f.input + f.output == written
    {
      f := f.(high := high);
      if high > 0 && |f.input| >= high {
        f := f.(wm := true);
      } else if linked {
        var g := UnsuspendWatermark(f);
        Set(g);
      } else {
        f := f.(wm := false);
      }
    }

    /** be_pair_flush, one direction: the one case in which the input may go above the watermark, but only
        when it has been reached before. */
    method Flush()
      requires Valid() && linked
      modifies this`f
      ensures Valid() && Flushed(old(f), f)
    {
      var g := Transfer(f, true);
      Set(g);
    }

    /** be_pair_unlink: what has not been moved stays where it is. */
    method Unlink()
      requires Valid()
      modifies this`linked
      ensures Valid() && !linked
    {
      linked := false;
    }
  }

  lemma Piped(done: seq<u8>, input: seq<u8>, output: seq<u8>, input': seq<u8>, output': seq<u8>)
    requires input' + output' == input + output
    ensures done + input' + output' == done + input + output
  {
    assert done + input' + output' == done + (input' + output');
    assert done + input + output == done + (input + output);
  }

  lemma Handed(done: seq<u8>, input: seq<u8>, k: nat)
    requires k <= |input|
    ensures done + input[..k] + input[k..] == done + input
  {
    assert input[..k] + input[k..] == input;
    assert done + input[..k] + input[k..] == done + (input[..k] + input[k..]);
  }

  /** g is f after a flush: emptied exactly when the watermark lets it be, and else filled up to it. */
  predicate Flushed(f: Flow, g: Flow) {
    && g.input + g.output == f.input + f.output && g.high == f.high
    && (g.output == [] <==> f.output == [] || Empties(f, true))
    && (g.output != [] ==> |g.input| == g.high)
  }

  /** A direction is flushed when the ends are linked, the mode is not the normal one, and it is asked for. */
  predicate Flushes(linked: bool, mode: FlushMode, asked: bool) {
    linked && !mode.Normal? && asked
  }

  /** Of ten bytes flushed to an input of five with a watermark of ten, five stay unsent. */
  lemma FlushStops(a: seq<u8>, b: seq<u8>, g: Flow)
    requires |a| == 5 && |b| == 10
    requires Flushed(Flow(b, true, true, a, true, false, false, 10), g)
    ensures var f := Flow(b, true, true, a, true, false, false, 10); Settled(f) && NotStalled(f)
    ensures g.input == a + b[..5] && g.output == b[5..]
  {
    assert |g.input + g.output| == 15;
    assert g.input == (g.input + g.output)[..10];
    assert g.output == (g.input + g.output)[10..];
  }

  datatype FlushMode = Normal | Flush | Finished

  /** bufferevent_pair_new, with the two ends a and b. */
  class Pair {
    /** From a to b, and from b to a. */
    const ab: Pipe
    const ba: Pipe

    ghost predicate Valid()
      reads this, ab, ba
    {
      ab != ba && ab.Valid() && ba.Valid() && ab.linked == ba.linked
    }

    constructor ()
      ensures Valid() && fresh(ab) && fresh(ba) && ab.linked
    {
      ab := new Pipe();
      ba := new Pipe();
    }

    /** bufferevent_enable on one end: reading concerns what flows to it, writing what flows from it. */
    method Enable(atA: bool, reading: bool, writing: bool)
      requires Valid()
      modifies ab`f, ba`f
      ensures Valid() && ab.written == old(ab.written) && ba.written == old(ba.written)
    {
      var to, from := if atA then ba else ab, if atA then ab else ba;
      if reading {
        to.EnableReading();
      }
      if writing {
        from.EnableWriting();
      }
    }

    /** be_pair_flush on one end. */
    method Flush(atA: bool, reading: bool, writing: bool, mode: FlushMode) returns (rc: int)
      requires Valid()
      modifies ab`f, ba`f
      ensures Valid() && rc == (if ab.linked then 0 else -1)
      ensures !Flushes(ab.linked, mode, if atA then writing else reading) ==> ab.f == old(ab.f)
      ensures !Flushes(ba.linked, mode, if atA then reading else writing) ==> ba.f == old(ba.f)
      ensures Flushes(ab.linked, mode, if atA then writing else reading) ==> Flushed(old(ab.f), ab.f)
      ensures Flushes(ba.linked, mode, if atA then reading else writing) ==> Flushed(old(ba.f), ba.f)
    {
      if !ab.linked {
        return -1;
      }
      rc := 0;
      if mode.Normal? {
        return;
      }
      if (reading && atA) || (writing && !atA) {
        ba.Flush();
      }
      if (writing && atA) || (reading && !atA) {
        ab.Flush();
      }
    }

    /** be_pair_unlink */
    method Unlink()
      requires Valid()
      modifies ab`linked, ba`linked
      ensures Valid() && !ab.linked
    {
      ab.Unlink();
      ba.Unlink();
    }
  }
}
