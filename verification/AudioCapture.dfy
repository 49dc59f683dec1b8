/** The circular buffer that microphone samples are captured into. */
module AudioCapture {
  type Sample = real

  /** Where the sample stands that was written `back` samples before the write position. */
  function Slot(pos: nat, size: nat, back: nat): (i: nat)
    requires pos < size && back <= size
    ensures i < size
  {
    if back <= pos then pos - back else pos - back + size
  }

  /** The last n samples. */
  function Last(history: seq<Sample>, n: nat): (s: seq<Sample>)
    requires n <= |history|
    ensures |s| == n
  {
    history[|history| - n..]
  }

  function Samples(rate: nat, ms: nat): nat {
    (rate * ms) / 1000
  }

  /** As many whole samples as that time has, at a thousand milliseconds a second. */
  lemma {:induction false} SamplesExact(rate: nat, ms: nat)
    ensures 1000 * Samples(rate, ms) <= rate * ms < 1000 * Samples(rate, ms) + 1000
  {
  }

  function Min(a: nat, b: nat): nat {
    if b < a then b else a
  }

  /** The buffer holds the end of what was captured since it was last cleared: as much as was captured, or as fits. */
  ghost predicate Remembers(audio: seq<Sample>, pos: nat, len: nat, history: seq<Sample>) {
    && pos < |audio| && len == Min(|history|, |audio|)
    && forall back :: 1 <= back <= len ==> audio[Slot(pos, |audio|, back)] == history[|history| - back]
  }

  /** The samples s written from pos on, going on at the front after the end. */
  ghost predicate Written(before: seq<Sample>, now: seq<Sample>, pos: nat, s: seq<Sample>) {
    && |now| == |before| && pos < |now| && |s| <= |now|
    && (forall i :: 0 <= i < |s| ==> now[if pos + i < |now| then pos + i else pos + i - |now|] == s[i])
    && (forall k :: 0 <= k < |now| && (k < pos || k >= pos + |s|) && k >= pos + |s| - |now| ==> now[k] == before[k])
  }

  function Moved(pos: nat, size: nat, n: nat): nat
    requires pos < size && n <= size
  {
    if pos + n < size then pos + n else pos + n - size
  }

  /** What stands `back` before the new write position: a new sample, or an old one, further back by the new ones. */
  lemma {:induction false} SampleAt(before: seq<Sample>, now: seq<Sample>, pos: nat, s: seq<Sample>, back: nat)
    requires Written(before, now, pos, s) && 1 <= back <= |now|
    ensures now[Slot(Moved(pos, |now|, |s|), |now|, back)]
         == if back <= |s| then s[|s| - back] else before[Slot(pos, |now|, back - |s|)]
  {
    var size, n, k := |now|, |s|, Slot(Moved(pos, |now|, |s|), |now|, back);
    if back <= n {
      var i := n - back;
      assert k == if pos + i < size then pos + i else pos + i - size;
    } else {
      assert k == Slot(pos, size, back - n);
    }
  }

  lemma {:induction false} WrittenRemembers(before: seq<Sample>, now: seq<Sample>, pos: nat, len: nat,
                                            history: seq<Sample>, s: seq<Sample>, captured: seq<Sample>)
    requires Remembers(before, pos, len, history) && Written(before, now, pos, s)
    requires |s| == Min(|captured|, |now|) && s == Last(captured, |s|)
    ensures Remembers(now, (pos + |s|) % |now|, Min(len + |s|, |now|), history + captured)
  {
    MovedIs(pos, |now|, |s|);
    hide Moved, Written;
    forall back | 1 <= back <= Min(len + |s|, |now|)
      ensures now[Slot(Moved(pos, |now|, |s|), |now|, back)] == (history + captured)[|history + captured| - back] {
      RemembersAt(before, now, pos, len, history, s, captured, back);
    }
  }

  lemma {:induction false} MovedIs(pos: nat, size: nat, n: nat)
    requires pos < size && n <= size
    ensures (pos + n) % size == Moved(pos, size, n) < size
  {
  }

  lemma {:induction false} RemembersAt(before: seq<Sample>, now: seq<Sample>, pos: nat, len: nat, history: seq<Sample>,
                                       s: seq<Sample>,
                                       captured: seq<Sample>, back: nat)
    requires Remembers(before, pos, len, history) && Written(before, now, pos, s)
    requires |s| == Min(|captured|, |now|) && s == Last(captured, |s|) && 1 <= back <= Min(len + |s|, |now|)
    ensures now[Slot(Moved(pos, |now|, |s|), |now|, back)] == (history + captured)[|history + captured| - back]
  {
    SampleAt(before, now, pos, s, back);
    MovedIs(pos, |now|, |s|);
    var size, n := |now|, |s|;
    assert |before| == size;
    hide Written, Moved, Slot;
    if back <= n {
      assert s[n - back] == captured[|captured| - back];
    } else {
      assert n == |captured|;
      assert before[Slot(pos, size, back - n)] == history[|history| - (back - n)];
    }
  }

  /** Reading n samples back from the write position, around the end if need be. */
  lemma {:induction false} ReadBack(audio: seq<Sample>, pos: nat, len: nat, history: seq<Sample>, n: nat)
    requires Remembers(audio, pos, len, history) && n <= len
    ensures var s0 := if pos - n < 0 then pos - n + |audio| else pos - n;
      && 0 <= s0 < |audio| && n <= |history|
      && Last(history, n) == if s0 + n > |audio| then audio[s0..] + audio[..n - (|audio| - s0)] else audio[s0..s0 + n]
  {
    var s0 := if pos - n < 0 then pos - n + |audio| else pos - n;
    var read := if s0 + n > |audio| then audio[s0..] + audio[..n - (|audio| - s0)] else audio[s0..s0 + n];
    forall i | 0 <= i < n ensures read[i] == Last(history, n)[i] {
      assert audio[Slot(pos, |audio|, n - i)] == history[|history| - (n - i)];
    }
  }

  method Copy(from: seq<Sample>, to: array<Sample>, at: nat)
    requires at + |from| <= to.Length
    modifies to
    ensures forall k :: 0 <= k < to.Length ==> to[k] == if at <= k < at + |from| then from[k - at] else old(to[k])
  {
    for i := 0 to |from|
      invariant forall k :: 0 <= k < to.Length ==> to[k] == if at <= k < at + i then from[k - at] else old(to[k])
    {
      to[at + i] := from[i];
    }
  }

  class AudioAsync {
    const device: bool
    const sampleRate: nat
    const lenMs: nat
    const audio: array<Sample>
    var running: bool
    var pos: nat
    var len: nat
    ghost var history: seq<Sample>    // what was captured since the last clear

    ghost predicate Valid()
      reads this, audio
    {
      Remembers(audio[..], pos, len, history)
    }

    /** Opens the device with room for lenMs milliseconds. */
    constructor (device: bool, sampleRate: nat, lenMs: nat)
      requires Samples(sampleRate, lenMs) > 0
      ensures Valid() && fresh(audio) && audio.Length == Samples(sampleRate, lenMs) && !running && history == []
      ensures this.device == device && this.sampleRate == sampleRate && this.lenMs == lenMs
    {
      this.device, this.sampleRate, this.lenMs := device, sampleRate, lenMs;
      audio := new Sample[Samples(sampleRate, lenMs)](_ => 0.0);
      running, pos, len, history := false, 0, 0, [];
    }

    method Resume() returns (ok: bool)
      requires Valid()
      modifies this`running
      ensures Valid() && ok == (device && !old(running)) && running == (ok || old(running))
    {
      ok := device && !running;
      if ok {
        running := true;
      }
    }

    method Pause() returns (ok: bool)
      requires Valid()
      modifies this`running
      ensures Valid() && ok == (device && old(running)) && running == (old(running) && !ok)
    {
      ok := device && running;
      if ok {
        running := false;
      }
    }

    method Clear() returns (ok: bool)
      requires Valid()
      modifies this`pos, this`len, this`history
      ensures Valid() && ok == (device && running) && history == if ok then [] else old(history)
    {
      if !device || !running {
        return false;
      }
      pos, len, history := 0, 0, [];
      ok := true;
    }

    /** Takes in what the device delivers, of any length. */
    method Callback(stream: seq<Sample>)
      requires Valid()
      modifies this`pos, this`len, this`history, audio
      ensures Valid() && history == if running then old(history) + stream else old(history)
    {
      hide Remembers, Written;
      if !running {
        return;
      }
      HasRoom();
      var s := stream;
      if |s| > audio.Length {
        s := s[|stream| - audio.Length..];
      }
      ghost var before := audio[..];
      if pos + |s| > audio.Length {
        var n0 := audio.Length - pos;
        Copy(s[..n0], audio, pos);
        Copy(s[n0..], audio, 0);
      } else {
        Copy(s, audio, pos);
      }
      IsWritten(before, audio[..], pos, s);
      WrittenRemembers(before, audio[..], pos, len, history, s, stream);
      pos := (pos + |s|) % audio.Length;
      len := Min(len + |s|, audio.Length);
      history := history + stream;
    }

    lemma {:induction false} HasRoom()
      requires Valid()
      ensures pos < audio.Length && len <= audio.Length && len <= |history|
    {
    }

    /** The last ms milliseconds, or as much of them as was captured and fits; nothing from before the
        last clear. */
    method Get(ms: int) returns (ok: bool, result: seq<Sample>)
      requires Valid()
      ensures ok == (device && running) && (!ok ==> result == [])
      ensures ok ==>
        var wanted := Samples(sampleRate, if ms <= 0 then lenMs else ms);
        var n := Min(wanted, Min(|history|, audio.Length));
        result == Last(history, n)
    {
      hide Remembers, Samples, Last;
      ok, result := device && running, [];
      if !ok {
        return;
      }
      HasRoom();
      LengthIs();
      var duration: nat := if ms <= 0 then lenMs else ms;
      var n := Samples(sampleRate, duration);
      if n > len {
        n := len;
      }
      result := CopyLast(n);
    }

    /** The last n samples, in one piece or two. */
    method CopyLast(n: nat) returns (result: seq<Sample>)
      requires Valid() && n <= len
      ensures n <= |history| && result == Last(history, n)
    {
      HasRoom();
      ghost var all := audio[..];
      ReadBack(all, pos, len, history, n);
      hide Remembers, Last;
      var s0 := pos - n;
      if s0 < 0 {
        s0 := s0 + audio.Length;
      }
      if s0 + n > audio.Length {
        var n0 := audio.Length - s0;
        assert audio[s0..s0 + n0] == all[s0..] && audio[0..n - n0] == all[..n - n0];
        result := audio[s0..s0 + n0] + audio[0..n - n0];
      } else {
        assert audio[s0..s0 + n] == all[s0..s0 + n];
        result := audio[s0..s0 + n];
      }
    }

    lemma {:induction false} LengthIs()
      requires Valid()
      ensures len == Min(|history|, audio.Length)
    {
    }
  }

  lemma {:induction false} IsWritten(before: seq<Sample>, now: seq<Sample>, pos: nat, s: seq<Sample>)
    requires |before| == |now| && pos < |now| && |s| <= |now|
    requires pos + |s| <= |now| ==>
      forall k :: 0 <= k < |now| ==> now[k] == if pos <= k < pos + |s| then s[k - pos] else before[k]
    requires var n0 := |now| - pos;
      pos + |s| > |now| ==>
        forall k ::
          0 <= k < |now| ==>
            now[k] == if k < |s| - n0 then s[n0..][k] else if pos <= k then s[..n0][k - pos] else before[k]
    ensures Written(before, now, pos, s)
  {
  }
}
