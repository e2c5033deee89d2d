/** Bounded capture of a command's two output streams. */
module Capture {
  import opened Prelude
  import opened Utf8

  datatype Stream = Stdout | Stderr

  datatype Read = Read(stream: Stream, chunk: seq<Byte>)

  /** One round of the capture loop: the cancellation flag, the time since the start, and what could be read. */
  datatype Tick = Tick(cancelSet: bool, elapsed: int, arrived: seq<Read>)

  datatype Captured = Captured(stdout: seq<Byte>, stderr: seq<Byte>, timedOut: bool, cancelled: bool, truncated: bool)

  // ---- What was read ----

  function StreamOf(arrived: seq<Read>, s: Stream): seq<Byte> {
    if arrived == [] then []
    else
      var r := arrived[|arrived| - 1];
      StreamOf(arrived[..|arrived| - 1], s) + if r.stream == s then r.chunk else []
  }

  function AllReads(script: seq<Tick>): seq<Read> {
    if script == [] then [] else AllReads(script[..|script| - 1]) + script[|script| - 1].arrived
  }

  function Size(arrived: seq<Read>): nat {
    |StreamOf(arrived, Stdout)| + |StreamOf(arrived, Stderr)|
  }

  // ---- What stops a command ----

  predicate Late(t: Tick, timeout: int) { t.elapsed >= timeout }

  /** Tick `i` is the first that asks the command to stop, and the output had not overflowed before it. */
  predicate FirstStop(script: seq<Tick>, timeout: int, limit: nat, i: int) {
    && 0 <= i < |script|
    && (script[i].cancelSet || Late(script[i], timeout))
    && (forall k :: 0 <= k < i ==> !script[k].cancelSet && !Late(script[k], timeout))
    && Size(AllReads(script[..i])) <= limit
  }

  /** What the result says about a run of the loop. */
  ghost predicate Faithful(script: seq<Tick>, timeout: int, limit: nat, r: Captured) {
    var arrived := AllReads(script);
    && r.stdout <= StreamOf(arrived, Stdout)
    && r.stderr <= StreamOf(arrived, Stderr)
    && |r.stdout| + |r.stderr| == (if Size(arrived) <= limit then Size(arrived) else limit)
    && (r.truncated <==> Size(arrived) > limit)
    && (r.cancelled <==> exists i :: FirstStop(script, timeout, limit, i) && script[i].cancelSet)
    && (r.timedOut <==> exists i :: FirstStop(script, timeout, limit, i) && !script[i].cancelSet)
  }

  /** The state of the two buffers after some arrived. */
  predicate Buffered(arrived: seq<Read>, limit: nat, stdout: seq<Byte>, stderr: seq<Byte>, truncated: bool) {
    && stdout <= StreamOf(arrived, Stdout)
    && stderr <= StreamOf(arrived, Stderr)
    && |stdout| + |stderr| == (if Size(arrived) <= limit then Size(arrived) else limit)
    && (truncated <==> Size(arrived) > limit)
  }

  /** `_capture`: the ticks are what the pipes, the clock and the cancellation flag showed, in order. */
  method Collect(script: seq<Tick>, timeout: int, limit: nat) returns (r: Captured)
    ensures Faithful(script, timeout, limit, r)
    ensures !(r.timedOut && r.cancelled)
  {
    var stdout: seq<Byte>, stderr: seq<Byte> := [], [];
    var timedOut, cancelled, truncated, terminating := false, false, false, false;
    for i := 0 to |script|
      invariant Buffered(AllReads(script[..i]), limit, stdout, stderr, truncated)
      invariant terminating <==> truncated || exists k :: 0 <= k < i && Stops(script[k], timeout)
      invariant cancelled <==> exists k :: 0 <= k < i && FirstStop(script, timeout, limit, k) && script[k].cancelSet
      invariant timedOut <==> exists k :: 0 <= k < i && FirstStop(script, timeout, limit, k) && !script[k].cancelSet
      invariant !(timedOut && cancelled)
      invariant timedOut || cancelled ==> terminating
    {
      var tick := script[i];
      if !terminating && tick.cancelSet {
        cancelled := true;
        terminating := true;
      }
      if !terminating && tick.elapsed >= timeout {
        timedOut := true;
        terminating := true;
      }
      ghost var before := AllReads(script[..i]);
      NextReads(script, i);
      StopsFirst(script, timeout, limit, i);
      assert truncated <==> Size(before) > limit;
      hide AllReads, Size, Buffered, FirstStop;
      stdout, stderr, truncated, terminating :=
        Drain(before, tick.arrived, limit, stdout, stderr, truncated, terminating);
    }
    assert script[..|script|] == script;
    r := Captured(stdout, stderr, timedOut, cancelled, truncated);
  }

  /** One more read adds its chunk to its own stream. */
  lemma OneMoreRead(sofar: seq<Read>, r: Read, s: Stream)
    ensures StreamOf(sofar + [r], s) == if r.stream == s then StreamOf(sofar, s) + r.chunk else StreamOf(sofar, s)
  {
    assert (sofar + [r])[..|sofar|] == sofar;
    assert StreamOf(sofar, s) + [] == StreamOf(sofar, s);
  }

  lemma TakeOneMore<T>(before: seq<T>, more: seq<T>, i: nat)
    requires i < |more|
    ensures before + more[..i + 1] == before + more[..i] + [more[i]]
  {
  }

  lemma NextReads(script: seq<Tick>, i: nat)
    requires i < |script|
    ensures AllReads(script[..i + 1]) == AllReads(script[..i]) + script[i].arrived
  {
    assert script[..i + 1][..i] == script[..i];
  }

  lemma StopsFirst(script: seq<Tick>, timeout: int, limit: nat, i: nat)
    requires i < |script|
    ensures FirstStop(script, timeout, limit, i) <==>
      && Stops(script[i], timeout) && Size(AllReads(script[..i])) <= limit
      && !exists k :: 0 <= k < i && Stops(script[k], timeout)
  {
    hide Size, AllReads;
  }

  predicate Stops(t: Tick, timeout: int) { t.cancelSet || Late(t, timeout) }

  /** `chunk[:n]`. */
  function Start(chunk: seq<Byte>, n: nat): seq<Byte> {
    if |chunk| <= n then chunk else chunk[..n]
  }

  /** What fits of a chunk. */
  function Fitting(chunk: seq<Byte>, remaining: int): seq<Byte> {
    if remaining <= 0 then [] else Start(chunk, remaining)
  }

  lemma FullBuffers(sofar: seq<Read>, limit: nat, stdout: seq<Byte>, stderr: seq<Byte>, truncated: bool)
    requires Buffered(sofar, limit, stdout, stderr, truncated) && |stdout| + |stderr| < limit
    ensures !truncated && stdout == StreamOf(sofar, Stdout) && stderr == StreamOf(sofar, Stderr)
  {
    hide StreamOf;
  }

  /** Keeping what fits of one more read keeps the buffers what they should be. */
  lemma ReadIsBuffered(sofar: seq<Read>, r: Read, limit: nat, stdout: seq<Byte>, stderr: seq<Byte>, truncated: bool)
    requires Buffered(sofar, limit, stdout, stderr, truncated)
    ensures var remaining := limit - |stdout| - |stderr|; var kept := Fitting(r.chunk, remaining);
      Buffered(sofar + [r], limit, if r.stream.Stdout? then stdout + kept else stdout,
               if r.stream.Stderr? then stderr + kept else stderr, truncated || |r.chunk| > remaining)
  {
    hide StreamOf;
    OneMoreRead(sofar, r, Stdout);
    OneMoreRead(sofar, r, Stderr);
    var after := sofar + [r];
    var remaining := limit - |stdout| - |stderr|;
    assert Size(after) == Size(sofar) + |r.chunk|;
    if remaining > 0 {
      FullBuffers(sofar, limit, stdout, stderr, truncated);
      var kept := Fitting(r.chunk, remaining);
      assert kept <= r.chunk;
      assert StreamOf(sofar, r.stream) + kept <= StreamOf(after, r.stream);
    } else {
      assert stdout + [] == stdout && stderr + [] == stderr;
    }
  }

  /** The reads of one round; the first chunk that does not fit is cut and asks the command to stop. */
  method Drain(ghost before: seq<Read>, arrived: seq<Read>, limit: nat, out: seq<Byte>, err: seq<Byte>,
               cut: bool, stopping: bool)
    returns (stdout: seq<Byte>, stderr: seq<Byte>, truncated: bool, terminating: bool)
    requires Buffered(before, limit, out, err, cut) && (cut ==> stopping)
    ensures Buffered(before + arrived, limit, stdout, stderr, truncated)
    ensures (terminating <==> stopping || truncated) && (cut ==> truncated)
  {
    stdout, stderr, truncated, terminating := out, err, cut, stopping;
    ghost var sofar := before;
    assert before + arrived[..0] == before;
    for i := 0 to |arrived|
      invariant sofar == before + arrived[..i]
      invariant Buffered(sofar, limit, stdout, stderr, truncated)
      invariant (terminating <==> stopping || truncated) && (cut ==> truncated)
    {
      var stream, chunk := arrived[i].stream, arrived[i].chunk;
      var remaining := limit - |stdout| - |stderr|;
      assert remaining > 0 ==> Fitting(chunk, remaining) == Start(chunk, remaining);
      assert remaining <= 0 ==> stdout + Fitting(chunk, remaining) == stdout;
      assert remaining <= 0 ==> stderr + Fitting(chunk, remaining) == stderr;
      hide *;
      ReadIsBuffered(sofar, arrived[i], limit, stdout, stderr, truncated);
      TakeOneMore(before, arrived, i);
      sofar := sofar + [arrived[i]];
      if remaining > 0 {
        if stream.Stdout? {
          stdout := stdout + Start(chunk, remaining);
        } else {
          stderr := stderr + Start(chunk, remaining);
        }
      }
      if |chunk| > remaining {
        truncated := true;
        terminating := true;
      }
    }
    assert arrived[..|arrived|] == arrived;
  }
}
