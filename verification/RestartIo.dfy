/**
 The restart library over an adversarial kernel.

 A descriptor open for reading is a stream of bytes together with a script that says how the
 coming read() calls behave: transfer a short count, fail with EINTR, or fail for good.
 A descriptor open for writing has such a script too.  Scripts are of any length and any
 contents; once a script is used up, calls transfer as much as they can.  So every pattern
 of short counts, interruptions and errors with finitely many calls that make no progress is
 covered.
 */
module RestartIo {
  import opened Common

  const NEWLINE: Byte := 10

  const NUL: Byte := 0

  // BLKSIZE is PIPE_BUF, which is 4096 on Linux.
  const BLKSIZE: nat := 4096

  datatype Outcome = Short(count: nat) | Interrupt | Error(code: int)

  function Min(a: nat, b: nat): (m: nat)
    ensures m <= a && m <= b && (m == a || m == b)
  {
    if a < b then a else b
  }

  // ---------- the system calls ----------

  // What one read() that can transfer up to `most` bytes returns.
  function Granted(script: seq<Outcome>, most: nat): int {
    if script == [] then most
    else
      match script[0]
      case Short(count) => Min(if count == 0 then 1 else count, most)
      case _ => -1
  }

  function Tail(script: seq<Outcome>): seq<Outcome> {
    if script == [] then [] else script[1..]
  }

  // The script behind its leading interruptions.
  function AfterInterrupts(script: seq<Outcome>): seq<Outcome> {
    if script != [] && script[0] == Interrupt then AfterInterrupts(script[1..]) else script
  }

  lemma {:induction false} InterruptsLead(script: seq<Outcome>)
    ensures var rest := AfterInterrupts(script);
            && (rest != [] ==> rest[0] != Interrupt) && |rest| <= |script| && script[|script| - |rest|..] == rest
            && forall i :: 0 <= i < |script| - |rest| ==> script[i] == Interrupt
  {
    if script != [] && script[0] == Interrupt {
      InterruptsLead(script[1..]);
      assert forall i :: 0 < i < |script| ==> script[i] == script[1..][i - 1];
    }
  }

  // What a read() that is not interrupted returns, and the error that it gives.
  predicate Returns(n: int, errno: Errno, script: seq<Outcome>, most: nat) {
    && n == Granted(script, most)
    && (n == -1 ==> script != [] && !script[0].Short?
                    && errno == if script[0] == Interrupt then EINTR else Other(script[0].code))
  }

  // The calls have used up the script from `was` to `now`, and the last of them has failed for
  // good with this error.
  predicate FailedBy(was: seq<Outcome>, now: seq<Outcome>, errno: Errno) {
    && |now| < |was| && was[|was| - |now|..] == now
    && var last := was[|was| - |now| - 1];
    && last.Error? && errno == Other(last.code)
  }

  predicate UsedUp(was: seq<Outcome>, now: seq<Outcome>) {
    |now| <= |was| && was[|was| - |now|..] == now
  }

  lemma UsedMore(was: seq<Outcome>, before: seq<Outcome>, now: seq<Outcome>, errno: Errno)
    requires UsedUp(was, before) && now == Tail(before)
    ensures UsedUp(was, now)
    ensures before != [] && before[0].Error? && errno == Other(before[0].code) ==> FailedBy(was, now, errno)
  {
    if before != [] {
      assert was[|was| - |before|] == before[0];
      assert was[|was| - |now|..] == before[1..];
    }
  }

  class Source {
    var rest: seq<Byte>
    var script: seq<Outcome>
    // How many calls have failed for good.
    ghost var errors: nat

    constructor (bytes: seq<Byte>, script: seq<Outcome>)
      ensures rest == bytes && this.script == script && errors == 0
    {
      rest, this.script, errors := bytes, script, 0;
    }

    ghost function Fuel(): nat
      reads this
    {
      |rest| + |script|
    }

    // read(fd, buf + off, size)
    method Read(buf: array<Byte>, off: nat, size: nat) returns (n: int, errno: Errno)
      requires off + size <= buf.Length
      modifies this, buf
      ensures n == -1 || 0 <= n <= Min(size, |old(rest)|)
      ensures n == -1 ==>
                && rest == old(rest) && buf[..] == old(buf[..]) && |script| < |old(script)|
                && (errno == EINTR || errno.Other?)
      ensures errors == old(errors) + if n == -1 && errno != EINTR then 1 else 0
      ensures n >= 0 ==>
                && rest == old(rest)[n..] && |script| <= |old(script)|
                && buf[..off + n] == old(buf[..off]) + old(rest)[..n]
                && buf[off + n..] == old(buf[off + n..])
      ensures n == 0 ==> size == 0 || old(rest) == []
      ensures Returns(n, errno, old(script), Min(size, |old(rest)|)) && script == Tail(old(script))
    {
      if script != [] {
        var o := script[0];
        script := script[1..];
        match o {
          case Interrupt =>
            return -1, EINTR;
          case Error(code) =>
            errors := errors + 1;
            return -1, Other(code);
          case Short(count) =>
            n := Min(if count == 0 then 1 else count, Min(size, |rest|));
        }
      } else {
        n := Min(size, |rest|);
      }
      errno := Unset;
      forall i | off <= i < off + n {
        buf[i] := rest[i - off];
      }
      assert forall i :: off <= i < off + n ==> buf[i] == rest[..n][i - off];
      rest := rest[n..];
    }
  }

  class Sink {
    var written: seq<Byte>
    var script: seq<Outcome>
    ghost var errors: nat

    constructor (script: seq<Outcome>)
      ensures written == [] && this.script == script && errors == 0
    {
      written, this.script, errors := [], script, 0;
    }

    // write(fd, buf + off, size)
    method Write(buf: array<Byte>, off: nat, size: nat) returns (n: int, errno: Errno)
      requires off + size <= buf.Length
      modifies this
      ensures n == -1 || 0 <= n <= size
      ensures n == -1 ==> written == old(written) && (errno == EINTR || errno.Other?)
      ensures errors == old(errors) + if n == -1 && errno != EINTR then 1 else 0
      ensures n >= 0 ==> written == old(written) + buf[off..off + n]
      ensures script == Tail(old(script))
      ensures n == -1 ==> old(script) != [] && if errno == EINTR then old(script)[0] == Interrupt
                                               else old(script)[0].Error? && errno == Other(old(script)[0].code)
      ensures n <= 0 ==> size == 0 || |script| < |old(script)|
    {
      if script != [] {
        var o := script[0];
        script := script[1..];
        match o {
          case Interrupt =>
            return -1, EINTR;
          case Error(code) =>
            errors := errors + 1;
            return -1, Other(code);
          case Short(count) =>
            n := Min(count, size);
        }
      } else {
        n := size;
      }
      errno := Unset;
      written := written + buf[off..off + n];
    }
  }

  // ---------- restart versions ----------

  // The first n bytes of buf are the first n bytes of the stream, which has moved on by n.
  ghost predicate Took(src: Source, buf: array<Byte>, was: seq<Byte>, n: nat)
    reads src, buf
  {
    n <= |was| && n <= buf.Length && src.rest == was[n..] && buf[..n] == was[..n]
  }

  lemma Split(s: seq<Byte>, i: nat, k: nat)
    requires i + k <= |s|
    ensures s[..i] + s[i..][..k] == s[..i + k] && s[i..][k..] == s[i + k..]
  {
  }

  method RRead(src: Source, buf: array<Byte>, size: nat) returns (n: int, errno: Errno)
    requires size <= buf.Length
    modifies src, buf
    ensures n == -1 || 0 <= n <= size
    ensures n >= 0 ==> Took(src, buf, old(src.rest), n) && src.errors == old(src.errors)
    ensures n == 0 ==> size == 0 || old(src.rest) == []
    ensures n == -1 ==> errno.Other? && src.rest == old(src.rest) && src.errors == old(src.errors) + 1
    ensures Returns(n, errno, AfterInterrupts(old(src.script)), Min(size, |old(src.rest)|))
    ensures src.script == Tail(AfterInterrupts(old(src.script)))
    ensures src.Fuel() <= old(src.Fuel())
  {
    hide AfterInterrupts, Returns;
    ghost var script := src.script;
    n, errno := src.Read(buf, 0, size);
    ReadOnce(n, errno, script, Min(size, |old(src.rest)|));
    while n == -1 && errno == EINTR
      invariant n == -1 || 0 <= n <= Min(size, |old(src.rest)|)
      invariant n == -1 ==> src.rest == old(src.rest) && (errno == EINTR || errno.Other?)
      invariant src.errors == old(src.errors) + if n == -1 && errno != EINTR then 1 else 0
      invariant n >= 0 ==> src.rest == old(src.rest)[n..] && buf[..n] == old(src.rest)[..n]
      invariant n == 0 ==> size == 0 || old(src.rest) == []
      invariant |src.script| <= |old(src.script)|
      invariant AfterInterrupts(script) == AfterInterrupts(old(src.script)) && src.script == Tail(script)
      invariant n == -1 && errno == EINTR ==> AfterInterrupts(src.script) == AfterInterrupts(script)
      invariant n != -1 || errno != EINTR ==>
                  Returns(n, errno, script, Min(size, |old(src.rest)|)) && AfterInterrupts(script) == script
      decreases |src.script|, n == -1 && errno == EINTR
    {
      script := src.script;
      n, errno := src.Read(buf, 0, size);
      ReadOnce(n, errno, script, Min(size, |old(src.rest)|));
    }
  }

  lemma ReadUses(n: int, errno: Errno, script: seq<Outcome>, most: nat)
    requires Returns(n, errno, script, most)
    ensures n == -1 && errno != EINTR ==> script != [] && script[0].Error? && errno == Other(script[0].code)
  {
  }

  // Whether one more read() is needed.
  lemma ReadOnce(n: int, errno: Errno, script: seq<Outcome>, most: nat)
    requires Returns(n, errno, script, most)
    ensures n == -1 && errno == EINTR ==> AfterInterrupts(Tail(script)) == AfterInterrupts(script)
    ensures n != -1 || errno != EINTR ==> AfterInterrupts(script) == script
  {
  }

  // What has been written is a prefix of the buffer: all of it or, after an error, less.
  method RWrite(sink: Sink, buf: array<Byte>, size: nat) returns (n: int, errno: Errno)
    requires size <= buf.Length
    modifies sink
    ensures n == size || n == -1
    ensures n == size ==> sink.written == old(sink.written) + buf[..size] && sink.errors == old(sink.errors)
    ensures n == -1 ==>
              && FailedBy(old(sink.script), sink.script, errno) && sink.errors == old(sink.errors) + 1
              && |old(sink.written)| <= |sink.written| < |old(sink.written)| + size
              && sink.written == old(sink.written) + buf[..|sink.written| - |old(sink.written)|]
  {
    var off, bytesToWrite, total := 0, size, 0;
    while bytesToWrite > 0
      invariant 0 <= off == total && 0 <= bytesToWrite && off + bytesToWrite == size
      invariant sink.written == old(sink.written) + buf[..off] && sink.errors == old(sink.errors)
      invariant UsedUp(old(sink.script), sink.script)
      decreases bytesToWrite + |sink.script|
    {
      ghost var script := sink.script;
      var k, e := sink.Write(buf, off, bytesToWrite);
      UsedMore(old(sink.script), script, sink.script, e);
      if k == -1 && e != EINTR {
        return -1, e;
      }
      if k == -1 {
        k := 0;
      }
      assert buf[..off] + buf[off..off + k] == buf[..off + k];
      off, bytesToWrite, total := off + k, bytesToWrite - k, total + k;
    }
    n, errno := total, Unset;
  }

  // A whole block, nothing at the end of the stream, or an error; nothing in between.
  method ReadBlock(src: Source, buf: array<Byte>, size: nat) returns (n: int, errno: Errno)
    requires size <= buf.Length
    modifies src, buf
    ensures n == size || n == 0 || n == -1
    ensures n == size ==> Took(src, buf, old(src.rest), size)
    ensures n == 0 && size > 0 ==> old(src.rest) == [] && src.rest == []
    ensures n >= 0 ==> src.errors == old(src.errors)
    ensures n == -1 ==>
              var k := |old(src.rest)| - |src.rest|;
              && 0 <= k < size && Took(src, buf, old(src.rest), k)
              && if errno == EINVAL then k > 0 && src.rest == [] && src.errors == old(src.errors)
                 else FailedBy(old(src.script), src.script, errno) && src.errors == old(src.errors) + 1
  {
    hide Returns, FailedBy;
    var off, bytesToRead, total := 0, size, 0;
    while bytesToRead > 0
      invariant 0 <= off == total && 0 <= bytesToRead && off + bytesToRead == size
      invariant Took(src, buf, old(src.rest), off) && src.errors == old(src.errors)
      invariant UsedUp(old(src.script), src.script)
      decreases src.Fuel()
    {
      ghost var before, script := buf[..], src.script;
      var k, e := src.Read(buf, off, bytesToRead);
      ReadUses(k, e, script, Min(bytesToRead, |old(src.rest)| - off));
      UsedMore(old(src.script), script, src.script, e);
      if k == 0 && total == 0 {
        return 0, Unset;
      }
      assert k == -1 ==> buf[..off] == before[..off];
      if k == 0 {
        return -1, EINVAL;
      }
      if k == -1 && e != EINTR {
        return -1, e;
      }
      if k == -1 {
        k := 0;
      }
      Split(old(src.rest), off, k);
      off, bytesToRead, total := off + k, bytesToRead - k, total + k;
    }
    n, errno := total, Unset;
  }

  // ---------- readline ----------

  // The length of the first line with its newline, or 0 when there is no newline.
  function LineLength(s: seq<Byte>): (n: nat)
    ensures n <= |s|
    ensures n > 0 ==> s[n - 1] == NEWLINE && forall i :: 0 <= i < n - 1 ==> s[i] != NEWLINE
    ensures n == 0 ==> forall i :: 0 <= i < |s| ==> s[i] != NEWLINE
  {
    if s == [] then 0
    else if s[0] == NEWLINE then 1
    else
      var n := LineLength(s[1..]);
      assert forall i :: 0 < i < |s| ==> s[i] == s[1..][i - 1];
      if n == 0 then 0 else n + 1
  }

  lemma LineLengthIs(s: seq<Byte>, n: nat)
    requires 0 < n <= |s| && s[n - 1] == NEWLINE && forall i :: 0 <= i < n - 1 ==> s[i] != NEWLINE
    ensures LineLength(s) == n
  {
  }

  // What readline returns for a stream that delivers no error.
  function LineResult(s: seq<Byte>, nbytes: int): int {
    if 0 < LineLength(s) <= nbytes - 1 then LineLength(s)
    else if s == [] && nbytes > 1 then 0
    else -1
  }

  // A newline right after n - 1 other bytes makes a line of n, and no newline in a full buffer
  // or before the end of the stream makes none.
  lemma LineResultIs(s: seq<Byte>, nbytes: int, n: nat)
    requires n <= |s| && forall i :: 0 <= i < n - 1 ==> s[i] != NEWLINE
    ensures 0 < n <= nbytes - 1 && s[n - 1] == NEWLINE ==> LineLength(s) == n == LineResult(s, nbytes)
    ensures (n == 0 || s[n - 1] != NEWLINE) && (n >= nbytes - 1 || (n == |s| && n > 0)) ==> LineResult(s, nbytes) == -1
  {
    if n > 0 && s[n - 1] == NEWLINE {
      LineLengthIs(s, n);
    }
  }

  method ReadLine(src: Source, buf: array<Byte>, nbytes: int) returns (r: int, errno: Errno)
    requires nbytes <= buf.Length
    modifies src, buf
    ensures src.errors == old(src.errors) ==> r == LineResult(old(src.rest), nbytes)
    ensures r > 0 ==>
              && src.errors == old(src.errors) && r == LineLength(old(src.rest)) <= nbytes - 1
              && Took(src, buf, old(src.rest), r) && buf[r] == NUL
    ensures r == 0 ==> old(src.rest) == src.rest == [] && src.errors == old(src.errors)
    ensures r <= 0 ==> r == 0 || r == -1
    ensures r == -1 ==>
              var k := |old(src.rest)| - |src.rest|;
              && 0 <= k && Took(src, buf, old(src.rest), k) && NEWLINE !in old(src.rest)[..k]
              && if errno == EINVAL then src.errors == old(src.errors)
                 else FailedBy(old(src.script), src.script, errno) && src.errors == old(src.errors) + 1
  {
    assert UsedUp(src.script, src.script);
    hide LineLength, Returns, FailedBy, UsedUp;
    assert LineResult([], nbytes) == if nbytes > 1 then 0 else -1;
    hide LineResult;
    var numRead := 0;
    while numRead < nbytes - 1
      invariant 0 <= numRead && (numRead < nbytes || numRead == 0)
      invariant Took(src, buf, old(src.rest), numRead) && src.errors == old(src.errors)
      invariant forall i :: 0 <= i < numRead ==> old(src.rest)[i] != NEWLINE
      invariant UsedUp(old(src.script), src.script)
      decreases src.Fuel()
    {
      ghost var before, script := buf[..], src.script;
      var k, e := src.Read(buf, numRead, 1);
      ReadUses(k, e, script, Min(1, |old(src.rest)| - numRead));
      UsedMore(old(src.script), script, src.script, e);
      if k == -1 && e == EINTR {
        assert buf[..numRead] == before[..numRead];
        continue;
      }
      if k == 0 && numRead == 0 {
        return 0, Unset;
      }
      assert k == -1 ==> buf[..numRead] == before[..numRead];
      if k == 0 {
        break;
      }
      if k == -1 {
        return -1, e;
      }
      Split(old(src.rest), numRead, 1);
      numRead := numRead + 1;
      if buf[numRead - 1] == NEWLINE {
        assert old(src.rest)[numRead - 1] == NEWLINE;
        LineResultIs(old(src.rest), nbytes, numRead);
        ghost var line := buf[..numRead];
        buf[numRead] := NUL;
        assert buf[..numRead] == line;
        return numRead, Unset;
      }
    }
    LineResultIs(old(src.rest), nbytes, numRead);
    return -1, EINVAL;
  }

  // The lines that successive successful calls return.
  function Lines(s: seq<Byte>, nbytes: int): seq<seq<Byte>>
    decreases |s|
  {
    var n := LineResult(s, nbytes);
    if n > 0 then [s[..n]] + Lines(s[n..], nbytes) else []
  }

  function Concat(lines: seq<seq<Byte>>): seq<Byte> {
    if lines == [] then [] else lines[0] + Concat(lines[1..])
  }

  lemma ConcatCons(line: seq<Byte>, lines: seq<seq<Byte>>)
    ensures Concat([line] + lines) == line + Concat(lines)
  {
    assert ([line] + lines)[1..] == lines;
  }

  // Successive lines are exactly the bytes consumed by the calls that return them, and the
  // calls stop only at a stream that does not begin with a line that fits.
  lemma {:induction false} LinesAreTheStream(s: seq<Byte>, nbytes: int)
    ensures Concat(Lines(s, nbytes)) <= s
    ensures LineResult(s[|Concat(Lines(s, nbytes))|..], nbytes) <= 0
    decreases |s|
  {
    var n := LineResult(s, nbytes);
    if n > 0 {
      var rest := s[n..];
      var lines := Lines(rest, nbytes);
      LinesAreTheStream(rest, nbytes);
      hide LineResult, Concat;
      ConcatCons(s[..n], lines);
      var k := |Concat(lines)|;
      Split(s, n, k);
      assert Concat(Lines(s, nbytes)) == s[..n] + rest[..k] == s[..n + k];
    } else {
      assert s[0..] == s;
    }
  }

  lemma {:induction false} ConcatSnoc(lines: seq<seq<Byte>>, line: seq<Byte>)
    ensures Concat(lines + [line]) == Concat(lines) + line
  {
    if lines == [] {
      assert [line][1..] == [];
    } else {
      ConcatSnoc(lines[1..], line);
      assert (lines + [line])[1..] == lines[1..] + [line];
    }
  }

  lemma LinesCons(s: seq<Byte>, nbytes: int, n: nat)
    requires n == LineResult(s, nbytes) > 0 && n <= |s|
    ensures Lines(s, nbytes) == [s[..n]] + Lines(s[n..], nbytes)
  {
  }

  // One more line moves from the stream to the lines read.
  lemma {:induction false} LineTaken(was: seq<Byte>, lines: seq<seq<Byte>>, rest: seq<Byte>, nbytes: int, n: nat)
    requires Concat(lines) + rest == was && lines + Lines(rest, nbytes) == Lines(was, nbytes)
    requires n == LineResult(rest, nbytes) > 0 && n <= |rest|
    ensures Concat(lines + [rest[..n]]) + rest[n..] == was
    ensures (lines + [rest[..n]]) + Lines(rest[n..], nbytes) == Lines(was, nbytes)
  {
    hide Lines, Concat, LineResult;
    LinesCons(rest, nbytes, n);
    Regroup(lines, [rest[..n]], Lines(rest[n..], nbytes));
    ConcatSnoc(lines, rest[..n]);
    Regroup(Concat(lines), rest[..n], rest[n..]);
    assert rest[..n] + rest[n..] == rest;
  }

  // Calls of readline up to the first that returns no line, on a stream of which `last` is
  // left before that call.  The lines are the bytes consumed and, whatever the kernel does,
  // the first of the lines of the stream; without errors they are all of them.
  method ReadLines(src: Source, buf: array<Byte>, nbytes: int)
      returns (lines: seq<seq<Byte>>, ghost last: seq<Byte>, r: int)
    requires nbytes <= buf.Length
    modifies src, buf
    ensures Concat(lines) + last == old(src.rest)
    ensures lines + Lines(last, nbytes) == Lines(old(src.rest), nbytes)
    ensures r == 0 || r == -1
    ensures src.errors == old(src.errors) ==>
              r == LineResult(last, nbytes) && lines == Lines(old(src.rest), nbytes)
    ensures src.errors != old(src.errors) ==> r == -1 && src.errors == old(src.errors) + 1
  {
    hide LineResult, Concat, Lines;
    lines, last := [], src.rest;
    var errno;
    NoLines(src.rest, nbytes);
    r, errno := ReadLine(src, buf, nbytes);
    while r > 0
      invariant Concat(lines) + last == old(src.rest)
      invariant lines + Lines(last, nbytes) == Lines(old(src.rest), nbytes)
      invariant src.errors == old(src.errors) ==> r == LineResult(last, nbytes)
      invariant r > 0 ==> src.errors == old(src.errors) && Took(src, buf, last, r)
      invariant r <= 0 ==> r == 0 || r == -1
      invariant src.errors != old(src.errors) ==> r == -1 && src.errors == old(src.errors) + 1
      decreases |last|, r
    {
      LineTaken(old(src.rest), lines, last, nbytes, r);
      lines := lines + [buf[..r]];
      last := src.rest;
      r, errno := ReadLine(src, buf, nbytes);
    }
    LinesEnd(last, nbytes);
  }

  lemma NoLines(s: seq<Byte>, nbytes: int)
    ensures Concat([]) + s == s && [] + Lines(s, nbytes) == Lines(s, nbytes)
  {
  }

  lemma LinesEnd(s: seq<Byte>, nbytes: int)
    ensures LineResult(s, nbytes) <= 0 ==> Lines(s, nbytes) == []
  {
  }

  // ---------- copying ----------

  method ReadWrite(src: Source, sink: Sink) returns (r: int)
    modifies src, sink
    ensures r == -1 || 0 <= r <= BLKSIZE
    ensures src.Fuel() <= old(src.Fuel())
    ensures r >= 0 ==>
              && r <= |old(src.rest)| && src.rest == old(src.rest)[r..]
              && sink.written == old(sink.written) + old(src.rest)[..r]
              && src.errors == old(src.errors) && sink.errors == old(sink.errors)
    ensures r == 0 ==> old(src.rest) == []
    ensures r >= 0 ==> r == Granted(AfterInterrupts(old(src.script)), Min(BLKSIZE, |old(src.rest)|))
    ensures r == -1 ==>
              || (&& src.errors == old(src.errors) + 1 && sink.errors == old(sink.errors)
                  && src.rest == old(src.rest) && sink.written == old(sink.written))
              || (&& src.errors == old(src.errors) && sink.errors == old(sink.errors) + 1
                  && WroteSome(old(src.rest), src.rest, old(sink.written), sink.written))
  {
    var buf := new Byte[BLKSIZE](_ => 0);
    hide AfterInterrupts;
    var n, e := RRead(src, buf, BLKSIZE);
    if n < 0 {
      return -1;
    }
    if n == 0 {
      return 0;
    }
    var w, e' := RWrite(sink, buf, n);
    if w < 0 {
      ghost var k := |sink.written| - |old(sink.written)|;
      assert buf[..k] == buf[..n][..k] == old(src.rest)[..k];
      return -1;
    }
    return n;
  }

  // After a write error, fewer bytes have come out than went in, in order, and fewer than
  // one block.
  ghost predicate WroteSome(was: seq<Byte>, rest: seq<Byte>, out: seq<Byte>, out': seq<Byte>) {
    && |rest| <= |was| && rest == was[|was| - |rest|..]
    && |out| <= |out'| < |out| + BLKSIZE && |out'| - |out| < |was| - |rest|
    && out' == out + was[..|out'| - |out|]
  }

  // The first n bytes of the source, and nothing else, have come out.
  ghost predicate Copied(rest: seq<Byte>, written: seq<Byte>, was: seq<Byte>, out: seq<Byte>, n: nat) {
    n <= |was| && rest == was[n..] && written == out + was[..n]
  }

  lemma CopiedMore(was: seq<Byte>, out: seq<Byte>, n: nat, rest: seq<Byte>, written: seq<Byte>, k: nat)
    requires Copied(rest, written, was, out, n) && k <= |rest|
    ensures Copied(rest[k..], written + rest[..k], was, out, n + k)
  {
    Split(was, n, k);
  }

  // Whatever the kernel did, what has come out is a prefix of what was consumed.  Without
  // errors it is the whole source; after a read error the total is what came out; after a
  // write error it is what came out before the block that failed.
  ghost predicate CopyResult(was: seq<Byte>, rest: seq<Byte>, out: seq<Byte>, written: seq<Byte>, total: nat,
                             readErrors: int, writeErrors: int) {
    && |rest| <= |was| && rest == was[|was| - |rest|..]
    && |out| <= |written|
    && var n := |written| - |out|;
    && n <= |was| - |rest| && written == out + was[..n]
    && total <= n < total + BLKSIZE
    && 0 <= readErrors && 0 <= writeErrors && readErrors + writeErrors <= 1
    && (writeErrors == 0 ==> total == n == |was| - |rest|)
    && (readErrors == writeErrors == 0 ==> rest == [] && total == |was|)
  }

  lemma CopyStopsAtWrite(was: seq<Byte>, out: seq<Byte>, total: nat, mid: seq<Byte>, written: seq<Byte>,
                         rest: seq<Byte>, written': seq<Byte>)
    requires Copied(mid, written, was, out, total) && WroteSome(mid, rest, written, written')
    ensures CopyResult(was, rest, out, written', total, 0, 1)
  {
    Split(was, total, |mid| - |rest|);
    Split(was, total, |written'| - |written|);
  }

  method CopyFile(src: Source, sink: Sink) returns (total: nat)
    modifies src, sink
    ensures CopyResult(old(src.rest), src.rest, old(sink.written), sink.written, total,
                       src.errors - old(src.errors), sink.errors - old(sink.errors))
  {
    total := 0;
    ghost var was, out := src.rest, sink.written;
    assert Copied(src.rest, sink.written, was, out, 0);
    var bytesRead := CopyStep(src, sink, was, out, total);
    while bytesRead > 0
      invariant bytesRead == -1 || 0 <= bytesRead <= BLKSIZE
      invariant bytesRead >= 0 ==> Copied(src.rest, sink.written, was, out, total + bytesRead)
      invariant bytesRead >= 0 ==> src.errors == old(src.errors) && sink.errors == old(sink.errors)
      invariant bytesRead <= 0 ==>
                  CopyResult(was, src.rest, out, sink.written, total, src.errors - old(src.errors), sink.errors - old(sink.errors))
      decreases if bytesRead == -1 then 0 else 1 + |src.rest|, bytesRead
    {
      total := total + bytesRead;
      bytesRead := CopyStep(src, sink, was, out, total);
    }
  }

  // One call of readwrite inside the loop of copyfile.
  method CopyStep(src: Source, sink: Sink, ghost was: seq<Byte>, ghost out: seq<Byte>, ghost total: nat) returns (r: int)
    requires Copied(src.rest, sink.written, was, out, total)
    modifies src, sink
    ensures r == -1 || 0 <= r <= BLKSIZE
    ensures |src.rest| <= |old(src.rest)| && (r > 0 ==> |src.rest| < |old(src.rest)|)
    ensures r >= 0 ==> Copied(src.rest, sink.written, was, out, total + r)
    ensures r >= 0 ==> src.errors == old(src.errors) && sink.errors == old(sink.errors)
    ensures r <= 0 ==>
              CopyResult(was, src.rest, out, sink.written, total, src.errors - old(src.errors), sink.errors - old(sink.errors))
  {
    r := ReadWrite(src, sink);
    if r >= 0 {
      CopiedMore(was, out, total, old(src.rest), old(sink.written), r);
    } else if src.errors == old(src.errors) {
      CopyStopsAtWrite(was, out, total, old(src.rest), old(sink.written), src.rest, sink.written);
    }
  }

  // One exact block goes through, or nothing at the end of the stream, or the call fails: by
  // the read, as readblock does, with nothing written, or by the write, with the block taken
  // and a strict prefix of it written.
  method ReadWriteBlock(src: Source, sink: Sink, buf: array<Byte>, size: nat) returns (r: int, errno: Errno)
    requires size <= buf.Length
    modifies src, sink, buf
    ensures r == size || r == 0 || r == -1
    ensures r >= 0 ==> src.errors == old(src.errors) && sink.errors == old(sink.errors)
    ensures r == size ==>
              && size <= |old(src.rest)| && src.rest == old(src.rest)[size..]
              && sink.written == old(sink.written) + old(src.rest)[..size]
    ensures r == 0 && size > 0 ==> old(src.rest) == src.rest == [] && sink.written == old(sink.written)
    ensures r == -1 ==>
              var taken := |old(src.rest)| - |src.rest|;
              && 0 <= taken <= size && src.rest == old(src.rest)[taken..]
              && if sink.errors == old(sink.errors)
                 then && sink.written == old(sink.written) && taken < size
                      && (if errno == EINVAL then taken > 0 && src.rest == [] && src.errors == old(src.errors)
                          else FailedBy(old(src.script), src.script, errno) && src.errors == old(src.errors) + 1)
                 else && sink.errors == old(sink.errors) + 1 && src.errors == old(src.errors)
                      && FailedBy(old(sink.script), sink.script, errno)
                      && taken == size && |old(sink.written)| <= |sink.written| < |old(sink.written)| + size
                      && sink.written == old(sink.written) + old(src.rest)[..|sink.written| - |old(sink.written)|]
  {
    var n, e := ReadBlock(src, buf, size);
    if n != size {
      return n, e;
    }
    r, errno := RWrite(sink, buf, size);
    if r == -1 {
      ghost var k := |sink.written| - |old(sink.written)|;
      assert buf[..k] == buf[..size][..k] == old(src.rest)[..k];
    }
  }
}
