/** The stream framing of the device base class: read_line_until, read_imu and read_timestamp. */
module DeviceLink {
  import opened Words
  import opened SerialLine
  import opened ImuTimeline

  const LF: byte := 10
  const CR: byte := 13
  const PLUS: byte := 43
  const MINUS: byte := 45
  const PROMPT: byte := 62
  const EOL: seq<byte> := [10]
  const MAX_LINE := 65536

  const TM: seq<byte> := [116, 109, 61]                             // tm=
  const BEGIN_MP: seq<byte> := [66, 69, 71, 73, 78, 32, 77, 80]      // BEGIN MP
  const BEGIN_IMU: seq<byte> := [66, 69, 71, 73, 78, 32, 73, 77, 85] // BEGIN IMU
  const END: seq<byte> := [69, 78, 68]                              // END

  function Ascii(text: string): (s: seq<byte>)
    requires forall i :: 0 <= i < |text| ==> text[i] as int < 128
    ensures |s| == |text|
  {
    seq(|text|, i requires 0 <= i < |text| => text[i] as int)
  }

  /** The texts that the reader looks for. */
  lemma WireTexts()
    ensures TM == Ascii("tm=") && BEGIN_MP == Ascii("BEGIN MP") && BEGIN_IMU == Ascii("BEGIN IMU")
    ensures END == Ascii("END") && [PROMPT] == Ascii(">") && EOL == [LF] == Ascii("\n")
    ensures [CR] == Ascii("\r") && [PLUS] == Ascii("+") && [MINUS] == Ascii("-")
  {
    assert [PROMPT] == Ascii(">") && [LF] == Ascii("\n") && [CR] == Ascii("\r");
    assert [PLUS] == Ascii("+") && [MINUS] == Ascii("-");
  }

  // ---- specification of read_line_until ----

  /** Length of the line that starts at position `p`. */
  function LineAt(s: seq<byte>, p: nat): (n: nat)
    requires p < |s|
    ensures 0 < n <= |s| - p
  {
    LineLen(s[p..], 0, MAX_LINE, EOL)
  }

  /** Start and end of the first line at or after position `p` that contains `needle`. */
  function FindLine(s: seq<byte>, p: nat, needle: seq<byte>): (r: Option<(nat, nat)>)
    requires p <= |s|
    ensures r.Some? ==> p <= r.value.0 < r.value.1 <= |s|
    decreases |s| - p
  {
    if p == |s| then None
    else
      var n := LineAt(s, p);
      if Contains(s[p..p + n], needle) then Some((p, p + n)) else FindLine(s, p + n, needle)
  }

  // ---- specification of read_imu ----

  /** The records before `END`, and the number of bytes up to and including it; None if the bytes run out first. */
  function ParseRecords(s: seq<byte>): (r: Option<(seq<Record>, nat)>)
    ensures r.Some? ==> r.value.1 <= |s|
  {
    if |s| < 3 then None
    else if s[..3] == END then Some(([], 3))
    else if |s| < 16 then None
    else
      var rest := ParseRecords(s[16..]);
      if rest.None? then None else Some(([s[..16]] + rest.value.0, 16 + rest.value.1))
  }

  function FlatRecords(recs: seq<Record>): seq<byte> {
    if recs == [] then [] else recs[0] + FlatRecords(recs[1..])
  }

  lemma ParseNothing(rest: seq<byte>)
    ensures ParseRecords(END + rest) == Some(([], 3))
  {
    assert (END + rest)[..3] == END;
  }

  /** One record in front of a parse. */
  lemma ParseRecord(rec: Record, rest: seq<byte>)
    ensures rec[..3] == END ==> ParseRecords(rec + rest) == Some(([], 3))
    ensures rec[..3] != END && ParseRecords(rest).None? ==> ParseRecords(rec + rest).None?
    ensures rec[..3] != END && ParseRecords(rest).Some? ==>
      ParseRecords(rec + rest) == Some(([rec] + ParseRecords(rest).value.0, 16 + ParseRecords(rest).value.1))
  {
    assert (rec + rest)[..16] == rec && (rec + rest)[16..] == rest && (rec + rest)[..3] == rec[..3];
  }

  /** read_imu inverts the record encoder if no record begins with the bytes of `END`. */
  lemma {:induction false} ParseRecordsInverts(recs: seq<Record>, rest: seq<byte>)
    requires forall i :: 0 <= i < |recs| ==> recs[i][..3] != END
    ensures ParseRecords(FlatRecords(recs) + END + rest) == Some((recs, 16 * |recs| + 3))
  {
    hide ParseRecords;
    if recs == [] {
      ParseNothing(rest);
      assert FlatRecords(recs) + END + rest == END + rest;
    } else {
      ParseRecordsInverts(recs[1..], rest);
      ParseRecord(recs[0], FlatRecords(recs[1..]) + END + rest);
      assert FlatRecords(recs) + END + rest == recs[0] + (FlatRecords(recs[1..]) + END + rest);
      assert [recs[0]] + recs[1..] == recs;
    }
  }

  /** The first record that begins with `END` ends the list: the reader takes the records before it, and three bytes. */
  lemma {:induction false} ParseRecordsStopsAtFirst(recs: seq<Record>, rest: seq<byte>, i: nat)
    requires i < |recs| && recs[i][..3] == END
    requires forall k :: 0 <= k < i ==> recs[k][..3] != END
    ensures ParseRecords(FlatRecords(recs) + END + rest) == Some((recs[..i], 16 * i + 3))
  {
    hide ParseRecords;
    ParseRecord(recs[0], FlatRecords(recs[1..]) + END + rest);
    assert FlatRecords(recs) + END + rest == recs[0] + (FlatRecords(recs[1..]) + END + rest);
    if i > 0 {
      ParseRecordsStopsAtFirst(recs[1..], rest, i - 1);
      assert [recs[0]] + recs[1..][..i - 1] == recs[..i];
    }
  }

  /** A list of records comes back exactly when none of them begins with the bytes of `END`. */
  lemma ParseRecordsInvertsExactlyWhen(recs: seq<Record>, rest: seq<byte>)
    ensures ParseRecords(FlatRecords(recs) + END + rest) == Some((recs, 16 * |recs| + 3))
       <==> forall i :: 0 <= i < |recs| ==> recs[i][..3] != END
  {
    hide ParseRecords;
    if forall i :: 0 <= i < |recs| ==> recs[i][..3] != END {
      ParseRecordsInverts(recs, rest);
    } else {
      var i := FirstEnd(recs);
      ParseRecordsStopsAtFirst(recs, rest, i);
    }
  }

  lemma {:induction false} FirstEnd(recs: seq<Record>) returns (i: nat)
    requires exists k :: 0 <= k < |recs| && recs[k][..3] == END
    ensures i < |recs| && recs[i][..3] == END && forall k :: 0 <= k < i ==> recs[k][..3] != END
  {
    i := 0;
    while recs[i][..3] != END
      invariant i < |recs| && forall k :: 0 <= k < i ==> recs[k][..3] != END
      decreases |recs| - i
    {
      i := i + 1;
    }
  }

  // ---- specification of read_timestamp ----

  predicate IsDigit(b: byte) { 48 <= b <= 57 }

  /** The leading decimal digits, continued from `acc`. */
  function ParseDigits(s: seq<byte>, acc: nat): nat {
    if s == [] || !IsDigit(s[0]) then acc else ParseDigits(s[1..], 10 * acc + (s[0] as int - 48))
  }

  predicate IsBlank(b: byte) { 9 <= b <= 13 || b == 32 }

  function SkipBlanks(s: seq<byte>): seq<byte> {
    if s != [] && IsBlank(s[0]) then SkipBlanks(s[1..]) else s
  }

  /** What %llu makes of a text: blanks, at most one sign, digits; None without a digit. A number that does not fit
      saturates, and a minus sign negates modulo 2^64. */
  function ParseUnsigned(s: seq<byte>): (r: Option<nat>)
    ensures r.Some? ==> r.value < TWO_64
  {
    var t := SkipBlanks(s);
    var signed := t != [] && (t[0] == PLUS || t[0] == MINUS);
    var digits := if signed then t[1..] else t;
    if digits == [] || !IsDigit(digits[0]) then None
    else
      var n := ParseDigits(digits, 0);
      Some(if n >= TWO_64 then TWO_64 - 1 else if signed && t[0] == MINUS then Wrap64(0 - n) else n)
  }

  /** sscanf("tm=%llu"): 0 unless the line starts with tm= and a number. */
  function ParseTimestamp(line: seq<byte>): (r: nat)
    ensures r < TWO_64
  {
    if TM <= line && ParseUnsigned(line[3..]).Some? then ParseUnsigned(line[3..]).value else 0
  }

  // ---- the link ----

  class Link {
    const serial: Serial
    const unpacker: Unpacker
    /** How many more loads of `_running` read true; stop() takes effect after them. */
    var stopIn: nat

    constructor (serial: Serial, unpacker: Unpacker, stopIn: nat)
      ensures this.serial == serial && this.unpacker == unpacker && this.stopIn == stopIn
    {
      this.serial, this.unpacker, this.stopIn := serial, unpacker, stopIn;
    }

    /** Timeouts may come between lines but not inside one. */
    ghost predicate QuietLines(from: nat, to: nat)
      requires to <= |serial.bytes|
    {
      forall p :: from < p < to && serial.bytes[p - 1] != LF ==> serial.stalls(p) == 0
    }

    /** The same, and the last line is complete. */
    ghost predicate QuietUpTo(from: nat, to: nat)
      requires to <= |serial.bytes|
    {
      QuietLines(from, to) && from < to && serial.bytes[to - 1] == LF
    }

    /** Once a load has read false every later one does: `stopIn > 0` afterwards means that all loads read true. */
    method LoadRunning() returns (running: bool)
      modifies this`stopIn
      ensures running <==> old(stopIn) > 0
      ensures stopIn == if running then old(stopIn) - 1 else 0
    {
      running := stopIn > 0;
      if running { stopIn := stopIn - 1; }
    }

    /** read_line_until. If no timeout falls inside a line, it stops behind the first line that contains `needle`. */
    method ReadLineUntil(needle: seq<byte>) returns (r: Result<seq<byte>, Unplugged>)
      requires serial.Valid() && needle != []
      modifies serial, this`stopIn
      ensures serial.Valid() && old(serial.pos) <= serial.pos && stopIn <= old(stopIn)
      ensures r.Err? ==> serial.pos == |serial.bytes|
      ensures r.Ok? && stopIn > 0 ==> Contains(r.value, needle) && Contains(serial.bytes[old(serial.pos)..], needle)
      ensures old(serial.pos) == |serial.bytes| && stopIn > 0 ==> r.Err?
      ensures var found := FindLine(serial.bytes, old(serial.pos), needle);
        stopIn > 0 && found.Some? && QuietUpTo(old(serial.pos), found.value.1) ==>
          r.Ok? && serial.pos == found.value.1 && r.value == serial.bytes[found.value.0..found.value.1]
    {
      assert !Contains([], needle);
      NothingFoundAtEnd(serial.bytes, needle);
      hide Contains, FindLine, QuietUpTo, LineLen, EndsWith;
      ghost var from := serial.pos;
      ghost var found := FindLine(serial.bytes, from, needle);
      while true
        invariant serial.Valid() && from <= serial.pos && stopIn <= old(stopIn)
        invariant found.Some? && QuietUpTo(from, found.value.1) ==> FindLine(serial.bytes, serial.pos, needle) == found
        decreases |serial.bytes| - serial.pos, serial.stalls(serial.pos) - serial.waited
      {
        ghost var at := serial.pos;
        var line := serial.ReadLine(MAX_LINE, EOL);
        if line.Err? {
          NoLineLeft(from, needle, at, found);
          return Err(Unplugged);
        }
        if found.Some? && QuietUpTo(from, found.value.1) {
          QuietLineIsWhole(from, found.value.1, needle, at, found.value.0);
        }
        if Contains(line.value, needle) {
          ContainsWithin(serial.bytes, from, at, serial.pos, needle);
          return line;
        }
        var running := LoadRunning();
        if !running { return line; }
      }
    }

    /** read_to_prompt: consumes the bytes up to and including the first prompt. Neither a timeout nor stop() ends it:
        it fails only when the port is unplugged with no prompt left, and on a port that stays silent it waits for
        ever. */
    method ReadToPrompt() returns (r: Result<(), Unplugged>)
      requires serial.Valid()
      modifies serial
      ensures serial.Valid() && old(serial.pos) <= serial.pos
      ensures r.Ok? <==> PROMPT in serial.bytes[old(serial.pos)..]
      ensures r.Ok? ==> serial.pos > old(serial.pos) && serial.bytes[serial.pos - 1] == PROMPT
      ensures r.Ok? ==> PROMPT !in serial.bytes[old(serial.pos)..serial.pos - 1]
      ensures r.Err? ==> serial.pos == |serial.bytes|
    {
      ghost var from := serial.pos;
      while true
        invariant serial.Valid() && from <= serial.pos
        invariant forall k :: from <= k < serial.pos ==> serial.bytes[k] != PROMPT
        decreases |serial.bytes| - serial.pos, serial.stalls(serial.pos) - serial.waited
      {
        var resp := serial.Read(1);
        if resp.Err? { return Err(Unplugged); }
        if resp.value == [] { continue; }
        if resp.value[0] == PROMPT {
          assert serial.bytes[from..][serial.pos - 1 - from] == PROMPT;
          return Ok(());
        }
      }
    }

    /** Where `n` lines with `END` end, one after the other; fewer stops than `n` mean that there is no further
        `END`. */
    ghost predicate StopsComing(from: nat, stops: seq<nat>, n: nat)
      decreases n
    {
      if n == 0 then stops == []
      else if stops == [] then from <= |serial.bytes| && !Contains(serial.bytes[from..], END)
      else
        && from <= |serial.bytes| && FindLine(serial.bytes, from, END).Some?
        && FindLine(serial.bytes, from, END).value.1 == stops[0] && QuietUpTo(from, stops[0])
        && StopsComing(stops[0], stops[1..], n - 1)
    }

    /** The loop of run() that skips the first frames: it stops behind the `n`-th line with `END`. */
    method SkipFrames(n: nat, ghost stops: seq<nat>) returns (r: Result<(), Unplugged>)
      requires serial.Valid()
      modifies serial, this`stopIn
      ensures serial.Valid() && old(serial.pos) <= serial.pos && stopIn <= old(stopIn)
      ensures StopsComing(old(serial.pos), stops, n) && stopIn > 0 && |stops| < n ==> r.Err?
      ensures StopsComing(old(serial.pos), stops, n) && stopIn > 0 && |stops| >= n ==>
        |stops| == n && r.Ok? && serial.pos == if n == 0 then old(serial.pos) else stops[n - 1]
    {
      hide FindLine, QuietUpTo, Contains, StopsComing;
      ghost var coming := StopsComing(serial.pos, stops, n);
      ghost var rest := stops;
      var skip: nat := n;
      while skip > 0
        invariant serial.Valid() && old(serial.pos) <= serial.pos && skip <= n && stopIn <= old(stopIn)
        invariant coming && stopIn > 0 ==> StopsComing(serial.pos, rest, skip)
        invariant n - skip <= |stops| ==> rest == stops[n - skip..]
        invariant coming && stopIn > 0 ==> n - skip <= |stops|
        invariant coming && stopIn > 0 ==> serial.pos == if skip == n then old(serial.pos) else stops[n - skip - 1]
      {
        if StopsComing(serial.pos, rest, skip) { NextStop(serial.pos, rest, skip); }
        var line := ReadLineUntil(END);
        if line.Err? { return Err(Unplugged); }
        rest := if rest == [] then [] else rest[1..];
        skip := skip - 1;
      }
      if StopsComing(serial.pos, rest, 0) { NoStops(serial.pos, rest); }
      r := Ok(());
    }

    lemma NextStop(from: nat, stops: seq<nat>, n: nat)
      requires StopsComing(from, stops, n) && n > 0
      ensures from <= |serial.bytes|
      ensures stops == [] ==> !Contains(serial.bytes[from..], END)
      ensures stops != [] ==> FindLine(serial.bytes, from, END).Some?
      ensures stops != [] ==> FindLine(serial.bytes, from, END).value.1 == stops[0]
      ensures stops != [] ==> stops[0] <= |serial.bytes| && QuietUpTo(from, stops[0])
      ensures stops != [] ==> StopsComing(stops[0], stops[1..], n - 1)
    {
    }

    lemma NoStops(from: nat, stops: seq<nat>)
      requires StopsComing(from, stops, 0)
      ensures stops == []
    {
    }

    /** The inner loops of read_imu: reads until `n` bytes have come, however they arrive. */
    method ReadExactly(n: nat) returns (r: Result<seq<byte>, Unplugged>)
      requires serial.Valid()
      modifies serial
      ensures serial.Valid() && old(serial.pos) <= serial.pos
      ensures r.Err? ==> serial.pos == |serial.bytes|
      ensures r.Err? ==> |serial.bytes| < old(serial.pos) + n
      ensures r.Ok? ==> serial.pos == old(serial.pos) + n && r.value == serial.bytes[old(serial.pos)..serial.pos]
    {
      ghost var from := serial.pos;
      var got: seq<byte> := [];
      while |got| < n
        invariant serial.Valid() && |got| <= n
        invariant serial.pos == from + |got| && got == serial.bytes[from..serial.pos]
        decreases n - |got|, serial.stalls(serial.pos) - serial.waited
      {
        var more := serial.Read(n - |got|);
        if more.Err? { return Err(Unplugged); }
        got := got + more.value;
      }
      r := Ok(got);
    }

    /** From `from` on, the first `BEGIN IMU` line is followed by exactly `recs` and `END`, which ends at `to`. */
    ghost predicate ImuComing(from: nat, recs: seq<Record>, to: nat) {
      && from <= |serial.bytes|
      && var found := FindLine(serial.bytes, from, BEGIN_IMU);
         && found.Some? && QuietUpTo(from, found.value.1)
         && ParseRecords(serial.bytes[found.value.1..]) == Some((recs, to - found.value.1))
    }

    /** read_imu: from the `BEGIN IMU` line to the bytes `END`, however the bytes are chunked. */
    method ReadImu(ghost recs: seq<Record>, ghost to: nat) returns (r: Result<(), Unplugged>)
      requires serial.Valid()
      modifies serial, this`stopIn, unpacker`imuData
      ensures serial.Valid() && old(serial.pos) <= serial.pos && stopIn <= old(stopIn)
      ensures r.Err? ==> serial.pos == |serial.bytes|
      ensures ImuComing(old(serial.pos), recs, to) && stopIn > 0 ==>
        r.Ok? && serial.pos == to && unpacker.imuData == recs
      ensures !Contains(serial.bytes[old(serial.pos)..], BEGIN_IMU) && stopIn > 0 ==> r.Err?
    {
      hide FindLine, QuietUpTo, ParseRecords, Contains;
      unpacker.imuData := [];
      var line := ReadLineUntil(BEGIN_IMU);
      if line.Err? { return Err(Unplugged); }
      r := ReadRecords();
    }

    /** The record loop of read_imu. */
    method ReadRecords() returns (r: Result<(), Unplugged>)
      requires serial.Valid() && unpacker.imuData == []
      modifies serial, this`stopIn, unpacker`imuData
      ensures serial.Valid() && old(serial.pos) <= serial.pos && stopIn <= old(stopIn)
      ensures r.Err? ==> serial.pos == |serial.bytes|
      ensures r.Ok? && stopIn > 0 ==>
        ParseRecords(serial.bytes[old(serial.pos)..]) == Some((unpacker.imuData, serial.pos - old(serial.pos)))
      ensures ParseRecords(serial.bytes[old(serial.pos)..]).Some? ==> r.Ok?
    {
      hide WillParse;
      ghost var from, rest := serial.pos, serial.bytes[serial.pos..];
      ghost var parsed := ParseRecords(rest);
      hide ParseRecords;
      ParseStart(rest);
      ghost var at := 0;
      while true
        invariant serial.Valid() && serial.pos == from + at && stopIn <= old(stopIn)
        invariant WillParse(unpacker.imuData, rest, at, parsed)
        decreases |serial.bytes| - serial.pos
      {
        var running := LoadRunning();
        if !running { break; }
        var head := ReadExactly(3);
        if head.Err? {
          ParseNeeds(unpacker.imuData, rest, at, parsed, 3);
          return Err(Unplugged);
        }
        assert head.value == rest[at..at + 3];
        if head.value == END {
          ParseEnd(unpacker.imuData, rest, at, parsed);
          return Ok(());
        }
        var tail := ReadExactly(13);
        if tail.Err? {
          ParseNeeds(unpacker.imuData, rest, at, parsed, 16);
          return Err(Unplugged);
        }
        JoinSlices(serial.bytes, from, at, 3, 13);
        ParseOne(unpacker.imuData, rest, at, parsed, head.value + tail.value);
        unpacker.imuData := unpacker.imuData + [head.value + tail.value];
        at := at + 16;
      }
      r := Ok(());
    }

    /** From `from` on, the first line with `tm=` ends at `to` and says `tm`. */
    ghost predicate TimeComing(from: nat, tm: nat, to: nat) {
      && from <= |serial.bytes|
      && var found := FindLine(serial.bytes, from, TM);
         && found.Some? && found.value.1 == to && QuietUpTo(from, to)
         && ParseTimestamp(serial.bytes[found.value.0..to]) == tm
    }

    /** read_timestamp. */
    method ReadTimestamp(ghost tm: nat, ghost to: nat) returns (r: Result<nat, Unplugged>)
      requires serial.Valid()
      modifies serial, this`stopIn
      ensures serial.Valid() && old(serial.pos) <= serial.pos && stopIn <= old(stopIn)
      ensures r.Err? ==> serial.pos == |serial.bytes|
      ensures r.Ok? ==> r.value < TWO_64
      ensures old(serial.pos) == |serial.bytes| && stopIn > 0 ==> r.Err?
      ensures TimeComing(old(serial.pos), tm, to) && stopIn > 0 ==> r == Ok(tm) && serial.pos == to
    {
      hide FindLine, QuietUpTo;
      var line := ReadLineUntil(TM);
      if line.Err? { return Err(Unplugged); }
      if line.value == [] { return Ok(0); }
      r := Ok(ParseTimestamp(line.value));
    }

    /** When the bytes run out inside a line, the line looked for is not still to come. */
    lemma NoLineLeft(from: nat, needle: seq<byte>, at: nat, found: Option<(nat, nat)>)
      requires at <= |serial.bytes| && (found.Some? ==> found.value.1 <= |serial.bytes|)
      requires LineLen(serial.bytes[at..], 0, MAX_LINE, EOL) == |serial.bytes| - at
      requires at < |serial.bytes| ==> !EndsWith(serial.bytes[at..], |serial.bytes| - at, EOL)
      ensures found.Some? && QuietUpTo(from, found.value.1) ==> FindLine(serial.bytes, at, needle) != found
    {
      hide LineLen, FindLine;
      if found.Some? { NothingFound(serial.bytes, at, needle, found.value); }
    }

    /** Where no timeout falls inside a line, a read line is whole or empty: it is the line looked for, or that is still
        to come. */
    lemma QuietLineIsWhole(from: nat, to: nat, needle: seq<byte>, at: nat, start: nat)
      requires serial.Valid() && from <= at <= serial.pos && to <= |serial.bytes| && QuietUpTo(from, to) && needle != []
      requires FindLine(serial.bytes, at, needle) == Some((start, to))
      requires serial.pos <= at + LineLen(serial.bytes[at..], 0, MAX_LINE, EOL)
      requires serial.waited == 0 ==> serial.pos == at + LineLen(serial.bytes[at..], 0, MAX_LINE, EOL)
      ensures serial.pos == at || serial.pos == at + LineAt(serial.bytes, at)
      ensures Contains(serial.bytes[at..serial.pos], needle) ==> at == start && serial.pos == to
      ensures !Contains(serial.bytes[at..serial.pos], needle) ==>
        FindLine(serial.bytes, serial.pos, needle) == Some((start, to))
    {
      hide LineLen;
      InsideLine(serial.bytes, at, serial.pos - at);
    }
  }

  /** What a stretch contains, all that comes from before it on contains. */
  lemma ContainsWithin(s: seq<byte>, from: nat, a: nat, b: nat, needle: seq<byte>)
    requires from <= a <= b <= |s| && Contains(s[a..b], needle)
    ensures Contains(s[from..], needle)
  {
    var i: nat :| i <= |s[a..b]| && OccursAt(s[a..b], needle, i);
    SliceOfSlice(s, a, b, i, |needle|);
    SliceOfSlice(s, from, |s|, a - from + i, |needle|);
    assert s[from..|s|] == s[from..];
    assert OccursAt(s[from..], needle, a - from + i);
  }

  lemma ContainsBehind(s: seq<byte>, from: nat, a: nat, needle: seq<byte>)
    requires from <= a <= |s| && Contains(s[a..], needle)
    ensures Contains(s[from..], needle)
  {
    assert s[a..] == s[a..|s|];
    ContainsWithin(s, from, a, |s|, needle);
  }

  lemma SliceOfSlice(s: seq<byte>, a: nat, b: nat, i: nat, n: nat)
    requires a <= b <= |s| && i + n <= b - a
    ensures s[a..b][i..i + n] == s[a + i..a + i + n]
  {
    var part := s[a..b];
    var x, y := part[i..i + n], s[a + i..a + i + n];
    forall k | 0 <= k < n ensures x[k] == y[k] {
      assert x[k] == part[i + k] && part[i + k] == s[a + (i + k)] && y[k] == s[a + i + k];
    }
  }

  /** The records read so far, `at` bytes into `s`, and what is still to come make up what `s` parses into. */
  ghost predicate WillParse(recs: seq<Record>, s: seq<byte>, at: nat, parsed: Option<(seq<Record>, nat)>) {
    && at <= |s|
    && parsed == match ParseRecords(s[at..])
                 case None => None
                 case Some((more, n)) => Some((recs + more, at + n))
  }

  lemma ParseEnd(recs: seq<Record>, s: seq<byte>, at: nat, parsed: Option<(seq<Record>, nat)>)
    requires WillParse(recs, s, at, parsed) && at + 3 <= |s| && s[at..at + 3] == END
    ensures parsed == Some((recs, at + 3))
  {
    assert s[at..][..3] == s[at..at + 3];
    assert recs + [] == recs;
  }

  lemma ParseNeeds(recs: seq<Record>, s: seq<byte>, at: nat, parsed: Option<(seq<Record>, nat)>, n: nat)
    requires WillParse(recs, s, at, parsed) && at + n > |s|
    requires n == 3 || (n == 16 && at + 3 <= |s| && s[at..at + 3] != END)
    ensures parsed.None?
  {
  }

  lemma JoinSlices(s: seq<byte>, from: nat, at: nat, m: nat, n: nat)
    requires from + at + m + n <= |s|
    ensures s[from + at..from + at + m] + s[from + at + m..from + at + m + n] == s[from..][at..at + (m + n)]
  {
    var joined := s[from + at..from + at + m] + s[from + at + m..from + at + m + n];
    var slice := s[from..][at..at + (m + n)];
    assert |joined| == |slice| == m + n;
    assert forall k :: 0 <= k < m + n ==> joined[k] == s[from..][at + k];
  }

  lemma ParseStart(s: seq<byte>)
    ensures WillParse([], s, 0, ParseRecords(s))
  {
    assert s[0..] == s;
    if ParseRecords(s).Some? { assert [] + ParseRecords(s).value.0 == ParseRecords(s).value.0; }
  }

  lemma ParseOne(recs: seq<Record>, s: seq<byte>, at: nat, parsed: Option<(seq<Record>, nat)>, rec: Record)
    requires WillParse(recs, s, at, parsed) && at + 16 <= |s|
    requires rec == s[at..at + 16] && s[at..at + 3] != END
    ensures WillParse(recs + [rec], s, at + 16, parsed)
  {
    assert s[at..][..3] == s[at..at + 3] && s[at..][..16] == rec && s[at..][16..] == s[at + 16..];
    if ParseRecords(s[at + 16..]).Some? {
      var more := ParseRecords(s[at + 16..]).value.0;
      assert recs + ([rec] + more) == (recs + [rec]) + more;
    }
  }

  /** When the bytes run out inside a line, no complete line with `needle` was left. */
  lemma NothingFound(s: seq<byte>, p: nat, needle: seq<byte>, found: (nat, nat))
    requires p <= |s|
    requires p < |s| ==> LineAt(s, p) == |s| - p && !EndsWith(s[p..], |s| - p, EOL)
    ensures FindLine(s, p, needle) == Some(found) ==> s[found.1 - 1] != LF
  {
  }

  lemma NothingFoundAtEnd(s: seq<byte>, needle: seq<byte>)
    ensures FindLine(s, |s|, needle).None?
  {
  }

  /** No byte before the last of a line is a line feed. */
  lemma InsideLine(s: seq<byte>, p: nat, k: nat)
    requires p < |s|
    ensures 0 < k < LineAt(s, p) ==> s[p + k - 1] != LF
  {
    LineLenIsLeast(s[p..], 0, MAX_LINE, EOL, LineAt(s, p));
    if 0 < k < LineAt(s, p) {
      assert !Stops(s[p..], k, MAX_LINE, EOL);
      assert s[p..][k - 1..k] == [s[p + k - 1]];
    }
  }
}
