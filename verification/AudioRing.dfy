/** The circular buffer that keeps the last samples of a recording. */
module AudioRing {

  /** The place `k` samples before the write position. */
  function Back(pos: nat, k: nat, size: nat): (i: int)
    requires pos < size && k < size
    ensures 0 <= i < size
  {
    if k < pos then pos - 1 - k else pos - 1 - k + size
  }

  /** Reading backwards from the write position, the buffer holds the last samples of all that were pushed. */
  ghost predicate Holds(buf: seq<real>, pos: nat, len: nat, pushed: seq<real>)
    requires pos < |buf|
  {
    && len == (if |pushed| < |buf| then |pushed| else |buf|)
    && forall k: nat :: k < len ==> buf[Back(pos, k, |buf|)] == pushed[|pushed| - 1 - k]
  }

  function Advance(pos: nat, n: nat, size: nat): (r: nat)
    requires pos < size && n <= size
    ensures r < size
  {
    if pos + n >= size then pos + n - size else pos + n
  }

  lemma {:induction false} AdvanceIsModulo(pos: nat, n: nat, size: nat)
    requires pos < size && n <= size
    ensures Advance(pos, n, size) == (pos + n) % size
  {
    if pos + n >= size { Wrapped(pos + n, size); }
  }

  lemma {:induction false} Wrapped(x: nat, size: nat)
    requires size <= x < 2 * size
    ensures x % size == x - size
  {
    assert x == 1 * size + (x - size);
  }

  /** The block written over the buffer from `pos` on, wrapping around. */
  ghost predicate Overwritten(buf: seq<real>, pos: nat, block: seq<real>, after: seq<real>)
    requires pos < |buf| && |block| <= |buf|
  {
    && |after| == |buf|
    && (forall k: nat :: k < |block| ==> after[Advance(pos, k, |buf|)] == block[k])
    && (forall i: nat :: i < |buf| && !Covered(i, pos, |block|, |buf|) ==> after[i] == buf[i])
  }

  predicate Covered(i: nat, pos: nat, n: nat, size: nat)
  {
    pos <= i < pos + n || i + size < pos + n
  }

  /** A written block counts as pushed. */
  lemma {:induction false} BlockPushed(buf: seq<real>, pos: nat, len: nat, pushed: seq<real>, block: seq<real>,
                                       after: seq<real>)
    requires pos < |buf| && |block| <= |buf| && Holds(buf, pos, len, pushed) && Overwritten(buf, pos, block, after)
    ensures Holds(after, Advance(pos, |block|, |buf|),
      if len + |block| < |buf| then len + |block| else |buf|, pushed + block)
  {
    var size, n := |buf|, |block|;
    var pos' := Advance(pos, n, size);
    var all := pushed + block;
    var len' := if len + n < size then len + n else size;
    forall k: nat | k < len'
      ensures after[Back(pos', k, size)] == all[|all| - 1 - k]
    {
      if k < n {
        assert Back(pos', k, size) == Advance(pos, n - 1 - k, size);
      } else {
        var i := Back(pos, k - n, size);
        assert Back(pos', k, size) == i && !Covered(i, pos, n, size);
      }
    }
  }

  /** Of a block that does not fit, only the end is written; all of it counts as pushed. */
  lemma {:induction false} LongBlock(buf: seq<real>, pos: nat, len: nat, pushed: seq<real>, skipped: seq<real>,
                                     block: seq<real>)
    requires pos < |buf| && |block| == |buf| && Holds(buf, pos, len, pushed + block)
    ensures Holds(buf, pos, len, pushed + skipped + block)
  {
    assert pushed + skipped + block == (pushed + skipped) + block;
    forall k: nat | k < len
      ensures buf[Back(pos, k, |buf|)] == (pushed + skipped + block)[|pushed| + |skipped| + |block| - 1 - k]
    {
      assert (pushed + block)[|pushed| + |block| - 1 - k] == block[|block| - 1 - k];
    }
  }

  lemma {:induction false} AllPushed(buf: seq<real>, pos: nat, len: nat, pushed: seq<real>, stream: seq<real>,
                                     skip: nat, after: seq<real>)
    requires skip <= |stream| && pos < |buf| && |stream| - skip <= |buf| && (skip > 0 ==> |stream| - skip == |buf|)
    requires Holds(buf, pos, len, pushed) && Overwritten(buf, pos, stream[skip..], after)
    ensures |after| == |buf|
    ensures var n := |stream| - skip;
      Holds(after, Advance(pos, n, |buf|), if len + n < |buf| then len + n else |buf|, pushed + stream)
  {
    var block := stream[skip..];
    BlockPushed(buf, pos, len, pushed, block, after);
    AfterLength(buf, pos, block, after);
    hide Holds, Overwritten, Advance;
    if skip > 0 {
      LongBlock(after, Advance(pos, |block|, |buf|),
        if len + |block| < |buf| then len + |block| else |buf|, pushed, stream[..skip], block);
      assert pushed + stream == pushed + stream[..skip] + block;
    }
  }

  lemma {:induction false} AfterLength(buf: seq<real>, pos: nat, block: seq<real>, after: seq<real>)
    requires pos < |buf| && |block| <= |buf| && Overwritten(buf, pos, block, after)
    ensures |after| == |buf|
  {
  }

  /** A run of samples written at one place. */
  function Placed(buf: seq<real>, at: nat, s: seq<real>): (r: seq<real>)
    requires at + |s| <= |buf|
    ensures |r| == |buf|
    ensures forall i :: 0 <= i < |buf| ==> r[i] == if at <= i < at + |s| then s[i - at] else buf[i]
  {
    buf[..at] + s + buf[at + |s|..]
  }

  lemma {:induction false} OneCopy(buf: seq<real>, pos: nat, block: seq<real>)
    requires pos < |buf| && pos + |block| <= |buf|
    ensures Overwritten(buf, pos, block, Placed(buf, pos, block))
  {
    hide Placed;
  }

  lemma {:induction false} TwoCopies(buf: seq<real>, pos: nat, block: seq<real>)
    requires pos < |buf| && |block| <= |buf| < pos + |block|
    ensures var n0 := |buf| - pos; Overwritten(buf, pos, block, Placed(Placed(buf, pos, block[..n0]), 0, block[n0..]))
  {
    hide Placed;
  }

  /** `n` samples of the buffer from `s0` on, wrapping around. */
  function Window(buf: seq<real>, s0: nat, n: nat): (r: seq<real>)
    requires s0 < |buf| && n <= |buf|
    ensures |r| == n && forall i :: 0 <= i < n ==> r[i] == buf[if s0 + i < |buf| then s0 + i else s0 + i - |buf|]
  {
    if s0 + n > |buf| then buf[s0..] + buf[..n - (|buf| - s0)] else buf[s0..s0 + n]
  }

  /** The samples that end at the write position are the last ones pushed. */
  lemma {:induction false} LastSamples(buf: seq<real>, pos: nat, len: nat, pushed: seq<real>, n: nat)
    requires pos < |buf| && Holds(buf, pos, len, pushed) && n <= len
    ensures Window(buf, if n <= pos then pos - n else pos - n + |buf|, n) == pushed[|pushed| - n..]
  {
    hide Window;
    var r := Window(buf, if n <= pos then pos - n else pos - n + |buf|, n);
    forall i: nat | i < n
      ensures r[i] == pushed[|pushed| - n + i]
    {
      assert buf[Back(pos, n - 1 - i, |buf|)] == pushed[|pushed| - 1 - (n - 1 - i)];
    }
  }

  /** How many whole samples a time has: as many thousandths of the rate as milliseconds. */
  function Samples(sampleRate: int, ms: int): (n: nat)
    requires sampleRate > 0 && ms > 0
    ensures 1000 * n <= sampleRate * ms < 1000 * (n + 1)
  {
    Product(sampleRate, ms);
    sampleRate * ms / 1000
  }

  function Least(a: int, b: int): int
  {
    if a < b then a else b
  }

  class AudioAsync {
    var device: nat
    var running: bool
    const lenMs: int
    const sampleRate: int
    const audio: array<real>
    var pos: nat
    var len: nat
    /** What the callbacks delivered since the last time the buffer was cleared. */
    ghost var pushed: seq<real>

    ghost predicate Valid()
      reads this, audio
    {
      && lenMs > 0 && sampleRate > 0 && audio.Length == Samples(sampleRate, lenMs)
      && pos < audio.Length && Holds(audio[..], pos, len, pushed)
    }

    /** The object after its device is opened with a sample rate that gives the buffer at least one sample. */
    constructor (lenMs: int, sampleRate: int, device: nat)
      requires lenMs > 0 && sampleRate > 0 && Samples(sampleRate, lenMs) > 0
      ensures Valid() && pushed == [] && !running && this.device == device && fresh(audio)
      ensures this.lenMs == lenMs && this.sampleRate == sampleRate
    {
      this.lenMs, this.sampleRate, this.device, this.running := lenMs, sampleRate, device, false;
      audio := new real[Samples(sampleRate, lenMs)](i => 0.0);
      pos, len, pushed := 0, 0, [];
    }

    method Resume() returns (ok: bool)
      requires Valid()
      modifies this`running
      ensures Valid() && ok == (device != 0 && !old(running)) && running == (old(running) || ok)
    {
      if device == 0 || running { return false; }
      running := true;
      return true;
    }

    method Pause() returns (ok: bool)
      requires Valid()
      modifies this`running
      ensures Valid() && ok == (device != 0 && old(running)) && running == (old(running) && !ok)
    {
      if device == 0 || !running { return false; }
      running := false;
      return true;
    }

    method Clear() returns (ok: bool)
      requires Valid()
      modifies this`pos, this`len, this`pushed
      ensures Valid() && ok == (device != 0 && running) && pushed == if ok then [] else old(pushed)
    {
      if device == 0 || !running { return false; }
      pos, len, pushed := 0, 0, [];
      return true;
    }

    /** Samples from the stream to the buffer, from `at` on. */
    method CopyIn(at: nat, stream: seq<real>)
      requires at + |stream| <= audio.Length
      modifies audio
      ensures audio[..] == Placed(old(audio[..]), at, stream)
    {
      hide Placed;
      for i := 0 to |stream|
        invariant forall k :: 0 <= k < audio.Length ==>
          audio[k] == if at <= k < at + i then stream[k - at] else old(audio[k])
      {
        audio[at + i] := stream[i];
      }
    }

    /** A block from the device. */
    method Callback(stream: seq<real>)
      requires Valid()
      modifies this`pos, this`len, this`pushed, audio
      ensures Valid() && pushed == if running then old(pushed) + stream else old(pushed)
    {
      hide Holds, Overwritten, Advance;
      if !running { return; }
      var n := |stream|;
      var size := audio.Length;
      var skip := 0;
      if n > size {
        skip := n - size;
        n := size;
      }
      ghost var buf := audio[..];
      var block := stream[skip..];
      WriteBlock(block);
      AdvanceIsModulo(pos, n, size);
      AllPushed(buf, pos, len, pushed, stream, skip, audio[..]);
      pos := (pos + n) % size;
      len := if len + n < size then len + n else size;
      pushed := pushed + stream;
    }

    /** The two copies of a block. */
    method WriteBlock(block: seq<real>)
      requires pos < audio.Length && |block| <= audio.Length
      modifies audio
      ensures Overwritten(old(audio[..]), pos, block, audio[..])
    {
      hide Placed, Overwritten;
      if pos + |block| > audio.Length {
        TwoCopies(audio[..], pos, block);
        var n0 := audio.Length - pos;
        CopyIn(pos, block[..n0]);
        CopyIn(0, block[n0..]);
      } else {
        OneCopy(audio[..], pos, block);
        CopyIn(pos, block);
      }
    }

    /** The last samples, as many as asked for and held; all of the buffer's time when no time is given. */
    method Get(ms: int, result: seq<real>) returns (r: seq<real>)
      requires Valid()
      ensures device == 0 || !running ==> r == result
      ensures device != 0 && running ==>
        |r| == Least(Samples(sampleRate, if ms <= 0 then lenMs else ms), Least(|pushed|, audio.Length))
      ensures device != 0 && running ==> |r| <= |pushed| && r == pushed[|pushed| - |r|..]
    {
      hide Samples, Holds, Window;
      if device == 0 || !running { return result; }
      var time := if ms <= 0 then lenMs else ms;
      var n := Samples(sampleRate, time);
      if n > len { n := len; }
      HeldCount(audio[..], pos, len, pushed);
      var s0: int := pos - n;
      if s0 < 0 { s0 := s0 + audio.Length; }
      LastSamples(audio[..], pos, len, pushed, n);
      r := ReadWindow(s0, n);
    }

    /** One or two copies out of the buffer. */
    method ReadWindow(s0: nat, n: nat) returns (r: seq<real>)
      requires s0 < audio.Length && n <= audio.Length
      ensures r == Window(audio[..], s0, n)
    {
      if s0 + n > audio.Length {
        var n0 := audio.Length - s0;
        r := audio[s0..] + audio[..n - n0];
      } else {
        r := audio[s0..s0 + n];
      }
    }
  }

  lemma {:induction false} HeldCount(buf: seq<real>, pos: nat, len: nat, pushed: seq<real>)
    requires pos < |buf| && Holds(buf, pos, len, pushed)
    ensures len == Least(|pushed|, |buf|)
  {
  }

  lemma {:induction false} Product(a: int, b: int)
    requires a > 0 && b > 0
    ensures a * b > 0
  {
  }
}
