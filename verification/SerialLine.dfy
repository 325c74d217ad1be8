/** The serial stream as the device code sees it, and the line functions on top of it. */
module SerialLine {
  import opened Words

  /** What the read functions throw when the device has gone. */
  datatype Unplugged = Unplugged

  /** `eol` ends the first `k` bytes of `s`. */
  predicate EndsWith(s: seq<byte>, k: nat, eol: seq<byte>)
    requires k <= |s|
  {
    |eol| <= k && s[k - |eol|..k] == eol
  }

  // ---- specification of readline ----

  /** A line at the start of `s` stops after `k` bytes: at the end-of-line string or at the maximum size. */
  predicate Stops(s: seq<byte>, k: nat, size: nat, eol: seq<byte>)
    requires k <= |s|
  {
    EndsWith(s, k, eol) || k == size
  }

  /** A line that was not cut short by a timeout. */
  predicate Complete(line: seq<byte>, size: nat, eol: seq<byte>) { line != [] && Stops(line, |line|, size, eol) }

  /** The length of the line at the start of `s`, whose first `k` bytes are known not to stop it. */
  function LineLen(s: seq<byte>, k: nat, size: nat, eol: seq<byte>): (r: nat)
    requires k <= |s|
    ensures k <= r <= |s| && (k < |s| ==> k < r)
    decreases |s| - k
  {
    if k == |s| then k
    else if Stops(s, k + 1, size, eol) then k + 1
    else LineLen(s, k + 1, size, eol)
  }

  /** One more byte of a line that starts at `start`: what the tests of the loop decide. */
  lemma LineTurn(s: seq<byte>, start: nat, k: nat, size: nat, eol: seq<byte>, line: seq<byte>)
    requires 0 < k && start + k <= |s| && line == s[start..start + k]
    ensures LineLen(s[start..], k - 1, size, eol) ==
      if (|eol| <= k && line[k - |eol|..] == eol) || k == size then k else LineLen(s[start..], k, size, eol)
    ensures EndsWith(s[start..], k, eol) <==> |eol| <= k && line[k - |eol|..] == eol
    ensures Complete(line, size, eol) <==> (|eol| <= k && line[k - |eol|..] == eol) || k == size
  {
    var rest := s[start..];
    if |eol| <= k { assert line[k - |eol|..] == rest[k - |eol|..k]; }
  }

  lemma NotComplete(size: nat, eol: seq<byte>)
    ensures !Complete([], size, eol)
  {
  }

  lemma LineLenAtEnd(s: seq<byte>, size: nat, eol: seq<byte>)
    ensures LineLen(s, |s|, size, eol) == |s|
  {
  }

  /** LineLen is the least stopping length, or all there is. */
  lemma {:induction false} LineLenIsLeast(s: seq<byte>, k: nat, size: nat, eol: seq<byte>, r: nat)
    requires k <= |s| && r == LineLen(s, k, size, eol)
    ensures forall j :: k < j < r ==> !Stops(s, j, size, eol)
    ensures r == k == |s| || (k < r && (Stops(s, r, size, eol) || r == |s|))
    decreases |s| - k
  {
    if k < |s| && !Stops(s, k + 1, size, eol) { LineLenIsLeast(s, k + 1, size, eol, r); }
  }

  // ---- specification of readlines ----

  /** The positions right behind each line. */
  function Ends(lines: seq<seq<byte>>): set<nat> {
    if lines == [] then {} else Ends(lines[..|lines| - 1]) + {|Flat(lines)|}
  }

  /** `lines` cuts `b` without loss, exactly behind the positions where the bytes so far end with `eol`, and at its
      end. */
  ghost predicate Cuts(b: seq<byte>, eol: seq<byte>, lines: seq<seq<byte>>) {
    && Flat(lines) == b
    && (forall i :: 0 <= i < |lines| ==> lines[i] != [])
    && (forall k :: k in Ends(lines) <==> 0 < k <= |b| && (EndsWith(b, k, eol) || k == |b|))
  }

  // ---- the port ----

  /** `bytes` is everything the port delivers until it is unplugged; before the byte at position `p` arrives,
      `stalls(p)` reads come back empty, and the read that gets it gets up to `bursts(p)` more. Every behaviour of a
      port over one connection is of this form, as long as the port does not stay silent for ever. */
  class Serial {
    const bytes: seq<byte>
    const stalls: nat -> nat
    const bursts: nat -> nat
    var pos: nat
    var waited: nat

    ghost predicate Valid()
      reads this
    {
      pos <= |bytes| && waited <= stalls(pos)
    }

    constructor (bytes: seq<byte>, stalls: nat -> nat, bursts: nat -> nat)
      ensures Valid() && this.bytes == bytes && this.stalls == stalls && this.bursts == bursts && pos == 0 == waited
    {
      this.bytes, this.stalls, this.bursts := bytes, stalls, bursts;
      pos, waited := 0, 0;
    }

    /** From position `from` on, where `w` reads had timed out already, the bytes up to `to` came without a timeout. */
    ghost predicate Flowed(from: nat, w: nat, to: nat) {
      (from < to ==> w == stalls(from)) && forall q :: from < q < to ==> stalls(q) == 0
    }

    /** They did, and the next read timed out; `left` is the number of timeouts there. */
    ghost predicate TimedOutAt(from: nat, w: nat, to: nat, left: nat) {
      Flowed(from, w, to) && 0 < left <= stalls(to) && (to == from ==> left > w)
    }

    /** From position `from` on, where `w` reads had timed out already, fewer than `size` bytes came before the port was
        unplugged, and no read timed out on the way. */
    ghost predicate UnpluggedWithin(from: nat, w: nat, size: nat) {
      |bytes| < from + size && Flowed(from, w, |bytes|) && stalls(|bytes|) == if from == |bytes| then w else 0
    }

    lemma TimedOutOnce(from: nat, w: nat, p: nat, left: nat, p': nat, left': nat)
      requires from <= p && from <= p' && w <= stalls(from)
      requires TimedOutAt(from, w, p, left) && TimedOutAt(from, w, p', left')
      ensures p == p'
    {
    }

    /** The appending read: nothing when it times out, else at least one and at most `size` of the next bytes. */
    method Read(size: nat) returns (r: Result<seq<byte>, Unplugged>)
      requires Valid() && size > 0
      modifies this
      ensures Valid() && old(pos) <= pos
      ensures r.Err? ==> pos == old(pos) == |bytes| && waited == old(waited) == stalls(pos)
      ensures r.Ok? ==> |r.value| <= size && r.value == bytes[old(pos)..pos] && pos == old(pos) + |r.value|
      ensures r.Ok? && r.value == [] ==> waited == old(waited) + 1
      ensures r.Ok? && r.value != [] ==> waited == 0 && old(waited) == stalls(old(pos))
    {
      if waited < stalls(pos) {
        waited := waited + 1;
        return Ok([]);
      }
      if pos == |bytes| { return Err(Unplugged); }
      var n := Min(size, Min(1 + bursts(pos), |bytes| - pos));
      r := Ok(bytes[pos..pos + n]);
      pos, waited := pos + n, 0;
    }

    /** readline. A full line unless a read timed out (`waited > 0`) before its end. */
    method ReadLine(size: nat, eol: seq<byte>) returns (r: Result<seq<byte>, Unplugged>)
      requires Valid() && size >= 1 && size >= |eol|
      modifies this
      ensures Valid() && old(pos) <= pos
      ensures r.Err? ==> pos == |bytes| && waited == stalls(pos)
      ensures r.Err? ==> LineLen(bytes[old(pos)..], 0, size, eol) == pos - old(pos)
      ensures r.Err? && pos > old(pos) ==> !EndsWith(bytes[old(pos)..], pos - old(pos), eol)
      ensures r.Ok? ==> r.value == bytes[old(pos)..pos]
      ensures r.Ok? ==> pos <= old(pos) + LineLen(bytes[old(pos)..], 0, size, eol)
      ensures r.Ok? && waited == 0 ==> pos == old(pos) + LineLen(bytes[old(pos)..], 0, size, eol) > old(pos)
      ensures r.Ok? && waited > 0 ==> pos > old(pos) || waited == old(waited) + 1
      ensures r.Ok? && waited > 0 ==> pos < old(pos) + LineLen(bytes[old(pos)..], 0, size, eol) || pos == |bytes|
      ensures r.Ok? && waited == 0 ==> Flowed(old(pos), old(waited), pos)
      ensures r.Ok? && waited > 0 ==> TimedOutAt(old(pos), old(waited), pos, waited)
      ensures r.Ok? ==> (waited == 0 <==> Complete(r.value, size, eol))
    {
      NotComplete(size, eol);
      hide LineLen, Stops, EndsWith, Complete;
      ghost var start, rest := pos, bytes[pos..];
      var line: seq<byte> := [];
      while true
        invariant Valid() && pos == start + |line| && line == bytes[start..pos] && |line| < size
        invariant waited == if line == [] then old(waited) else 0
        invariant Flowed(start, old(waited), pos) && !Complete(line, size, eol)
        invariant line != [] ==> !EndsWith(rest, |line|, eol)
        invariant LineLen(rest, |line|, size, eol) == LineLen(rest, 0, size, eol)
        decreases |bytes| - pos
      {
        var got := Read(1);
        if got.Err? {
          LineLenAtEnd(rest, size, eol);
          return Err(Unplugged);
        }
        line := line + got.value;
        if got.value == [] { break; }
        LineTurn(bytes, start, |line|, size, eol, line);
        if |line| < |eol| { continue; }
        if line[|line| - |eol|..] == eol { break; }
        if |line| == size { break; }
      }
      r := Ok(line);
    }

    /** readline, over and over until a read times out. */
    method ReadLineByLine(size: nat, eol: seq<byte>) returns (r: Result<seq<seq<byte>>, Unplugged>)
      requires Valid() && size >= 1 && size >= |eol|
      modifies this
      ensures Valid() && old(pos) <= pos
      ensures r.Ok? ==> TimedOutAt(old(pos), old(waited), pos, waited)
      ensures r.Ok? ==> r.value == RepeatedLines(bytes[old(pos)..pos], size, eol)
    {
      hide LineLen, Complete, Flat, RepeatedLines, EndsWith;
      ghost var start := pos;
      var lines: seq<seq<byte>> := [];
      FlatNothing();
      while true
        invariant Valid() && start <= pos && Flowed(start, old(waited), pos)
        invariant waited == if pos == start then old(waited) else 0
        invariant AllComplete(lines, size, eol) && Flat(lines) == bytes[start..pos]
        decreases |bytes| - pos
      {
        ghost var at := pos;
        var line := ReadLine(size, eol);
        if line.Err? { return Err(Unplugged); }
        assert bytes[start..at] + line.value == bytes[start..pos];
        LineOfRest(bytes, at, pos, size, eol);
        if waited > 0 {
          RepeatedFlat(lines, line.value, size, eol);
          return Ok(lines + if line.value == [] then [] else [line.value]);
        }
        PushLine(lines, line.value);
        lines := lines + [line.value];
      }
    }

    /** readlines: reads up to `size` bytes or until a read times out. When it returns, nothing that was read is lost
        unless the port filled a buffer shorter than the end-of-line string; when it throws, all that came is lost. */
    method ReadLines(size: nat, eol: seq<byte>) returns (r: Result<seq<seq<byte>>, Unplugged>)
      requires Valid()
      modifies this
      ensures Valid() && old(pos) <= pos <= old(pos) + size
      ensures r.Err? <==> UnpluggedWithin(old(pos), old(waited), size)
      ensures r.Err? ==> pos == |bytes|
      ensures r.Ok? && pos < old(pos) + size ==> TimedOutAt(old(pos), old(waited), pos, waited)
      ensures r.Ok? ==>
        if pos == old(pos) + size && 0 < size < |eol| then r.value == []
        else Cuts(bytes[old(pos)..pos], eol, r.value)
    {
      CutNothing(eol);
      hide CutSoFar, Cuts, EndsWith;
      ghost var from := pos;
      var lines: seq<seq<byte>> := [];
      var buffer: seq<byte> := [];
      var startOfLine: nat := 0;
      while |buffer| < size
        invariant Valid() && pos == from + |buffer| && |buffer| <= size && buffer == bytes[from..pos]
        invariant startOfLine <= |buffer| && (0 < |buffer| == size ==> size < |eol|)
        invariant CutSoFar(buffer, startOfLine, eol, lines)
        invariant |buffer| < |eol| ==> lines == []
        invariant Flowed(from, old(waited), pos) && waited == if buffer == [] then old(waited) else 0
        decreases size - |buffer|, stalls(pos) - waited
      {
        var got := Read(1);
        if got.Err? { return Err(Unplugged); }
        if got.value == [] {
          FinishCut(buffer, startOfLine, eol, lines);
          if startOfLine != |buffer| { lines := lines + [buffer[startOfLine..]]; }
          return Ok(lines);
        }
        ghost var before := buffer;
        buffer := buffer + got.value;
        assert buffer == bytes[from..pos];
        if |buffer| < |eol| {
          ShortEndsNothing(buffer, eol);
          GrowCutOn(before, startOfLine, eol, lines, got.value[0], buffer);
          continue;
        }
        if EndsWith(buffer, |buffer|, eol) {
          GrowCutEnd(before, startOfLine, eol, lines, got.value[0], buffer);
          lines := lines + [buffer[startOfLine..]];
          startOfLine := |buffer|;
        } else {
          GrowCutOn(before, startOfLine, eol, lines, got.value[0], buffer);
        }
        if |buffer| == size {
          FinishCut(buffer, startOfLine, eol, lines);
          if startOfLine != |buffer| { lines := lines + [buffer[startOfLine..]]; }
          return Ok(lines);
        }
      }
      FinishCut(buffer, startOfLine, eol, lines);
      r := Ok(lines);
    }
  }

  /** The cuts behind the bytes before `start`, which is behind the last end-of-line string so far. */
  ghost predicate CutSoFar(b: seq<byte>, start: nat, eol: seq<byte>, lines: seq<seq<byte>>)
    requires start <= |b|
  {
    && Flat(lines) == b[..start]
    && (forall i :: 0 <= i < |lines| ==> lines[i] != [])
    && (forall k :: k in Ends(lines) <==> 0 < k <= |b| && EndsWith(b, k, eol))
    && (start > 0 ==> EndsWith(b, start, eol))
    && (forall k :: start < k <= |b| ==> !EndsWith(b, k, eol))
  }

  lemma ShortEndsNothing(b: seq<byte>, eol: seq<byte>)
    requires |b| < |eol|
    ensures !EndsWith(b, |b|, eol)
  {
  }

  lemma CutNothing(eol: seq<byte>)
    ensures CutSoFar([], 0, eol, [])
  {
  }

  lemma PushLine(lines: seq<seq<byte>>, line: seq<byte>)
    ensures Flat(lines + [line]) == Flat(lines) + line
    ensures Ends(lines + [line]) == Ends(lines) + {|Flat(lines)| + |line|}
  {
    assert (lines + [line])[..|lines|] == lines;
  }

  lemma FinishCut(b: seq<byte>, start: nat, eol: seq<byte>, lines: seq<seq<byte>>)
    requires start <= |b| && CutSoFar(b, start, eol, lines)
    ensures Cuts(b, eol, if start == |b| then lines else lines + [b[start..]])
  {
    PushLine(lines, b[start..]);
    assert b[..start] + b[start..] == b;
  }

  lemma EndsWithStays(b: seq<byte>, x: byte, k: nat, eol: seq<byte>)
    requires k <= |b|
    ensures EndsWith(b + [x], k, eol) == EndsWith(b, k, eol)
  {
    if |eol| <= k { assert (b + [x])[k - |eol|..k] == b[k - |eol|..k]; }
  }

  lemma AllEndsStay(b: seq<byte>, x: byte, eol: seq<byte>, c: seq<byte>)
    requires c == b + [x]
    ensures forall k :: 0 <= k <= |b| ==> EndsWith(c, k, eol) == EndsWith(b, k, eol)
  {
    forall k | 0 <= k <= |b| ensures EndsWith(c, k, eol) == EndsWith(b, k, eol) { EndsWithStays(b, x, k, eol); }
  }

  /** One more byte that ends no line. */
  lemma GrowCutOn(b: seq<byte>, start: nat, eol: seq<byte>, lines: seq<seq<byte>>, x: byte, c: seq<byte>)
    requires start <= |b| && CutSoFar(b, start, eol, lines)
    requires c == b + [x] && !EndsWith(c, |c|, eol)
    ensures CutSoFar(c, start, eol, lines)
  {
    AllEndsStay(b, x, eol, c);
    hide EndsWith, Ends, Flat;
    assert c[..start] == b[..start];
  }

  /** One more byte that ends a line. */
  lemma GrowCutEnd(b: seq<byte>, start: nat, eol: seq<byte>, lines: seq<seq<byte>>, x: byte, c: seq<byte>)
    requires start <= |b| && CutSoFar(b, start, eol, lines)
    requires c == b + [x] && EndsWith(c, |c|, eol)
    ensures CutSoFar(c, |c|, eol, lines + [c[start..]])
  {
    AllEndsStay(b, x, eol, c);
    PushLine(lines, c[start..]);
    hide EndsWith, Ends, Flat;
    assert c[..start] == b[..start] && c[..start] + c[start..] == c[..|c|];
  }

  // ---- readlines against repeated readline ----

  /** What readline returns over and over on bytes that end in a timeout. */
  function RepeatedLines(b: seq<byte>, size: nat, eol: seq<byte>): seq<seq<byte>> {
    if b == [] then []
    else
      var n := LineLen(b, 0, size, eol);
      [b[..n]] + RepeatedLines(b[n..], size, eol)
  }

  /** A line that is cut out of a longer text keeps its length. */
  lemma {:induction false} LineLenPrefix(s: seq<byte>, k: nat, n: nat, size: nat, eol: seq<byte>)
    requires k <= n <= |s|
    ensures LineLen(s[..n], k, size, eol) == Min(LineLen(s, k, size, eol), n)
    decreases n - k
  {
    if k < n {
      assert EndsWith(s[..n], k + 1, eol) == EndsWith(s, k + 1, eol) by {
        if |eol| <= k + 1 { assert s[..n][k + 1 - |eol|..k + 1] == s[k + 1 - |eol|..k + 1]; }
      }
      LineLenPrefix(s, k + 1, n, size, eol);
    }
  }

  lemma LineOfRest(s: seq<byte>, from: nat, to: nat, size: nat, eol: seq<byte>)
    requires from <= to <= |s| && to <= from + LineLen(s[from..], 0, size, eol)
    ensures LineLen(s[from..to], 0, size, eol) == to - from
  {
    assert s[from..][..to - from] == s[from..to];
    LineLenPrefix(s[from..], 0, to - from, size, eol);
  }

  /** A complete line in front of other bytes is their first line. */
  lemma CompleteIsFirst(line: seq<byte>, more: seq<byte>, size: nat, eol: seq<byte>)
    requires Complete(line, size, eol) && LineLen(line, 0, size, eol) == |line|
    ensures LineLen(line + more, 0, size, eol) == |line|
  {
    var s := line + more;
    assert s[..|line|] == line;
    LineLenPrefix(s, 0, |line|, size, eol);
    LineLenIsLeast(s, 0, size, eol, LineLen(s, 0, size, eol));
    assert Stops(s, |line|, size, eol) by {
      if |eol| <= |line| { assert s[|line| - |eol|..|line|] == line[|line| - |eol|..|line|]; }
    }
  }

  ghost predicate AllComplete(lines: seq<seq<byte>>, size: nat, eol: seq<byte>) {
    forall i :: 0 <= i < |lines| ==> Complete(lines[i], size, eol) && LineLen(lines[i], 0, size, eol) == |lines[i]|
  }

  /** Complete lines, and perhaps a last one that a timeout cut short, are the repeated lines of their bytes. */
  lemma {:induction false} RepeatedFlat(lines: seq<seq<byte>>, last: seq<byte>, size: nat, eol: seq<byte>)
    requires AllComplete(lines, size, eol) && LineLen(last, 0, size, eol) == |last|
    ensures RepeatedLines(Flat(lines) + last, size, eol) == lines + if last == [] then [] else [last]
    decreases |lines|
  {
    hide Complete, LineLen, Flat;
    if lines == [] {
      FlatNothing();
      assert [] + last == last && last[..|last|] == last && last[|last|..] == [];
    } else {
      var rest := lines[1..];
      var more := Flat(rest) + last;
      assert [lines[0]] + rest == lines;
      FlatFront(lines[0], rest);
      assert Flat(lines) + last == lines[0] + more;
      CompleteIsFirst(lines[0], more, size, eol);
      NotComplete(size, eol);
      RepeatedFlat(rest, last, size, eol);
      assert (lines[0] + more)[..|lines[0]|] == lines[0] && (lines[0] + more)[|lines[0]|..] == more;
      var cut := if last == [] then [] else [last];
      assert [lines[0]] + (rest + cut) == lines + cut;
    }
  }

  lemma FlatNothing()
    ensures Flat<byte>([]) == []
  {
  }

  lemma {:induction false} CutAtLength(s: seq<byte>, k: nat, size: nat, eol: seq<byte>, r: nat)
    requires k < r <= |s| && r <= size
    requires forall j :: k < j < r ==> !EndsWith(s, j, eol)
    requires EndsWith(s, r, eol) || r == |s|
    ensures LineLen(s, k, size, eol) == r
    decreases r - k
  {
    if k + 1 < r { CutAtLength(s, k + 1, size, eol, r); }
  }

  lemma {:induction false} FlatFront(line: seq<byte>, rest: seq<seq<byte>>)
    ensures Flat([line] + rest) == line + Flat(rest)
  {
    if rest == [] {
      PushLine([], line);
    } else {
      var init, last := rest[..|rest| - 1], rest[|rest| - 1];
      FlatFront(line, init);
      assert [line] + rest == ([line] + init) + [last] && rest == init + [last];
      PushLine([line] + init, last);
      PushLine(init, last);
    }
  }

  lemma {:induction false} EndsFront(line: seq<byte>, rest: seq<seq<byte>>, k: nat)
    ensures k in Ends([line] + rest) <==> k == |line| || (k >= |line| && k - |line| in Ends(rest))
  {
    if rest == [] {
      PushLine([], line);
    } else {
      var init, last := rest[..|rest| - 1], rest[|rest| - 1];
      EndsFront(line, init, k);
      FlatFront(line, init);
      assert [line] + rest == ([line] + init) + [last] && rest == init + [last];
      PushLine([line] + init, last);
      PushLine(init, last);
    }
  }

  lemma {:induction false} EndsPositive(lines: seq<seq<byte>>)
    requires forall i :: 0 <= i < |lines| ==> lines[i] != []
    ensures 0 !in Ends(lines)
  {
    if lines != [] { EndsPositive(lines[..|lines| - 1]); }
  }

  /** Behind the first line, a cut by a one-byte end of line is again a cut. */
  lemma CutsTail(b: seq<byte>, eol: seq<byte>, lines: seq<seq<byte>>, n: nat, c: seq<byte>, rest: seq<seq<byte>>)
    requires |eol| == 1 && lines != [] && Cuts(b, eol, lines)
    requires n == |lines[0]| && rest == lines[1..]
    requires n <= |b| && c == b[n..]
    ensures lines[0] == b[..n] && Cuts(c, eol, rest)
  {
    assert lines == [lines[0]] + rest;
    FlatFront(lines[0], rest);
    EndsPositive(rest);
    forall k: nat ensures k in Ends(rest) <==> 0 < k <= |c| && (EndsWith(c, k, eol) || k == |c|) {
      EndsFront(lines[0], rest, k + n);
      if 0 < k <= |c| { assert c[k - 1..k] == b[n + k - 1..n + k]; }
    }
  }

  /** With a one-byte end-of-line string and ample size, readlines returns what repeated readline calls return. */
  lemma {:induction false} CutsAreRepeatedLines(b: seq<byte>, size: nat, eol: seq<byte>, lines: seq<seq<byte>>)
    requires |eol| == 1 && size > |b| && Cuts(b, eol, lines)
    ensures lines == RepeatedLines(b, size, eol)
    decreases |lines|
  {
    if lines != [] {
      var n, rest := |lines[0]|, lines[1..];
      FirstCut(b, eol, lines, size);
      CutsTail(b, eol, lines, n, b[n..], rest);
      CutsAreRepeatedLines(b[n..], size, eol, rest);
      assert lines == [lines[0]] + rest;
    }
  }

  /** On the same stream, with a one-byte end-of-line string and room for all that comes before the next timeout, a call
      of ReadLines and calls of ReadLine until the timeout return the same lines and stop at the same position. */
  lemma SameLines(port: Serial, from: nat, w: nat, size: nat, eol: seq<byte>,
                  p: nat, left: nat, lines: seq<seq<byte>>, p': nat, left': nat, lines': seq<seq<byte>>)
    requires from <= p <= |port.bytes| && from <= p' <= |port.bytes| && w <= port.stalls(from)
    requires port.TimedOutAt(from, w, p, left) && Cuts(port.bytes[from..p], eol, lines)
    requires port.TimedOutAt(from, w, p', left') && lines' == RepeatedLines(port.bytes[from..p'], size, eol)
    requires |eol| == 1 && p < from + size
    ensures p == p' && lines == lines'
  {
    hide Cuts, RepeatedLines;
    port.TimedOutOnce(from, w, p, left, p', left');
    CutsAreRepeatedLines(port.bytes[from..p], size, eol, lines);
  }

  lemma FirstCut(b: seq<byte>, eol: seq<byte>, lines: seq<seq<byte>>, size: nat)
    requires lines != [] && Cuts(b, eol, lines) && size > |b|
    ensures |lines[0]| <= |b| && LineLen(b, 0, size, eol) == |lines[0]|
  {
    var n, rest := |lines[0]|, lines[1..];
    assert lines == [lines[0]] + rest;
    EndsPositive(rest);
    EndsFront(lines[0], rest, n);
    forall j | 0 < j < n ensures !EndsWith(b, j, eol) { EndsFront(lines[0], rest, j); }
    CutAtLength(b, 0, size, eol, n);
  }

  /** A call of readlines that loses a byte: the buffer has room for one, the end-of-line string has two. */
  method LostByte() returns (lines: seq<seq<byte>>, taken: nat)
    ensures lines == [] && taken == 1
  {
    var port := new Serial([65, 13, 10], _ => 0, _ => 0);
    var r := port.ReadLines(1, [13, 10]);
    lines, taken := r.value, port.pos;
  }

  /** When the port is unplugged, even a whole line that had come is lost. */
  method LostLine() returns (thrown: bool, taken: nat)
    ensures thrown && taken == 3
  {
    var port := new Serial([65, 13, 10], _ => 0, _ => 0);
    var r := port.ReadLines(100, [13, 10]);
    thrown, taken := r.Err?, port.pos;
  }
}
