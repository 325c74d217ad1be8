/** The CDC frames that the reader accepts, as an encoder writes them, and where the reader finds their parts. */
module CdcEncoding {
  import opened Words
  import opened SerialLine
  import opened ImuTimeline
  import opened DeviceLink

  // ---- decimal numbers ----

  function Digits(n: nat): (s: seq<byte>)
    ensures s != []
  {
    if n < 10 then [48 + n] else Digits(n / 10) + [48 + n % 10]
  }

  predicate AllDigits(s: seq<byte>) { forall i :: 0 <= i < |s| ==> IsDigit(s[i]) }

  lemma {:induction false} DigitsAreDigits(n: nat)
    ensures AllDigits(Digits(n))
  {
    if n >= 10 { DigitsAreDigits(n / 10); }
  }

  function Pow10(k: nat): nat { if k == 0 then 1 else 10 * Pow10(k - 1) }

  lemma {:induction false} DigitsLength(n: nat, k: nat)
    requires n < Pow10(k) && k > 0
    ensures |Digits(n)| <= k
  {
    if n >= 10 { DigitsLength(n / 10, k - 1); }
  }

  lemma {:induction false} ParseDigitsAppend(a: seq<byte>, b: seq<byte>, acc: nat)
    requires AllDigits(a)
    ensures ParseDigits(a + b, acc) == ParseDigits(b, ParseDigits(a, acc))
    decreases |a|
  {
    if a == [] {
      assert a + b == b;
    } else {
      assert (a + b)[1..] == a[1..] + b;
      ParseDigitsAppend(a[1..], b, 10 * acc + (a[0] as int - 48));
    }
  }

  lemma {:induction false} ParseDigitsInverts(n: nat)
    ensures ParseDigits(Digits(n), 0) == n
  {
    if n >= 10 {
      var d: byte := 48 + n % 10;
      DigitsAreDigits(n / 10);
      ParseDigitsInverts(n / 10);
      ParseDigitsAppend(Digits(n / 10), [d], 0);
      assert [d][1..] == [];
    } else {
      var d: byte := 48 + n;
      assert [d][1..] == [];
    }
  }

  // ---- lines ----

  /** Lines end in a line feed, or in a carriage return and a line feed. */
  predicate IsEol(eol: seq<byte>) { eol == [LF] || eol == [CR, LF] }

  lemma OccursSplit(s: seq<byte>, p: nat, a: seq<byte>, b: seq<byte>)
    requires OccursAt(s, a + b, p)
    ensures OccursAt(s, a, p) && OccursAt(s, b, p + |a|)
  {
    var whole := s[p..p + |a + b|];
    assert forall k :: 0 <= k < |a| ==> whole[k] == a[k];
    assert forall k :: 0 <= k < |b| ==> whole[|a| + k] == b[k];
    assert s[p..p + |a|] == a;
    assert s[p + |a|..p + |a| + |b|] == b;
  }

  /** A text without line feeds, followed by an end of line, is read as one line. */
  lemma LineIsWhole(s: seq<byte>, p: nat, text: seq<byte>, eol: seq<byte>)
    requires IsEol(eol) && OccursAt(s, text + eol, p) && LF !in text && |text| < 1000
    ensures p < |s| && LineAt(s, p) == |text| + |eol| && s[p + |text| + |eol| - 1] == LF
    ensures s[p..p + (|text| + |eol|)] == text + eol
  {
    var line, r := text + eol, |text| + |eol|;
    var rest := s[p..];
    assert rest[..r] == line;
    forall j | 0 < j < r ensures !EndsWith(rest, j, EOL) {
      assert rest[j - 1..j] == [rest[j - 1]] && rest[j - 1] == line[j - 1] && line[j - 1] != LF;
    }
    assert rest[r - 1] == line[r - 1] == LF && rest[r - 1..r] == [rest[r - 1]];
    CutAtLength(rest, 0, MAX_LINE, EOL, r);
  }

  lemma EndsInFeed(s: seq<byte>, p: nat, text: seq<byte>, eol: seq<byte>)
    requires IsEol(eol) && OccursAt(s, text + eol, p)
    ensures s[p + |text| + |eol| - 1] == LF
  {
    var line := text + eol;
    assert s[p..p + |line|][|line| - 1] == line[|line| - 1];
  }

  lemma FindHere(s: seq<byte>, p: nat, text: seq<byte>, eol: seq<byte>, needle: seq<byte>)
    requires IsEol(eol) && OccursAt(s, text + eol, p) && LF !in text && |text| < 1000
    requires needle <= text
    ensures FindLine(s, p, needle) == Some((p, p + |text| + |eol|)) && s[p + |text| + |eol| - 1] == LF
  {
    LineIsWhole(s, p, text, eol);
    assert OccursAt(text + eol, needle, 0);
  }

  lemma FindNext(s: seq<byte>, p: nat, eol: seq<byte>, needle: seq<byte>)
    requires IsEol(eol) && OccursAt(s, eol, p) && |needle| > 2
    ensures FindLine(s, p, needle) == FindLine(s, p + |eol|, needle)
  {
    assert [] + eol == eol;
    LineIsWhole(s, p, [], eol);
    assert !Contains(eol, needle);
  }

  /** A line in which the first character of the needle does not occur is passed over. */
  lemma FindPast(s: seq<byte>, p: nat, text: seq<byte>, eol: seq<byte>, needle: seq<byte>)
    requires IsEol(eol) && OccursAt(s, text + eol, p) && LF !in text && |text| < 1000
    requires needle != [] && needle[0] !in text + eol
    ensures FindLine(s, p, needle) == FindLine(s, p + |text + eol|, needle)
  {
    LineIsWhole(s, p, text, eol);
    WithoutFirst(text + eol, needle);
  }

  lemma WithoutFirst(s: seq<byte>, needle: seq<byte>)
    requires needle != [] && needle[0] !in s
    ensures !Contains(s, needle)
  {
  }

  // ---- time stamps ----

  function TimeText(tm: nat): seq<byte> { TM + Digits(tm) }

  lemma TimeTextIsLine(tm: nat)
    requires tm < TWO_64
    ensures LF !in TimeText(tm) && |TimeText(tm)| < 1000 && TM <= TimeText(tm)
  {
    DigitsAreDigits(tm);
    assert Pow10(4) == 1_0000 && Pow10(8) == 1_0000_0000 && Pow10(12) == 1_0000_0000_0000;
    assert Pow10(16) == 1_0000_0000_0000_0000 && Pow10(20) == 1_0000_0000_0000_0000_0000;
    DigitsLength(tm, 20);
  }

  lemma TimeTextParses(s: seq<byte>, p: nat, tm: nat, eol: seq<byte>)
    requires tm < TWO_64 && IsEol(eol) && OccursAt(s, TimeText(tm) + eol, p)
    ensures ParseTimestamp(s[p..p + |TimeText(tm) + eol|]) == tm
  {
    var line := TimeText(tm) + eol;
    assert line[3..] == Digits(tm) + eol;
    DigitsAreDigits(tm);
    ParseDigitsAppend(Digits(tm), eol, 0);
    ParseDigitsInverts(tm);
  }

  predicate Blank(s: seq<byte>) {
    forall i :: 0 <= i < |s| ==> s[i] == 32 || s[i] == 9 || s[i] == 10 || s[i] == 11 || s[i] == 12 || s[i] == 13
  }

  predicate NoDigitFirst(s: seq<byte>) { s == [] || s[0] < 48 || s[0] > 57 }

  lemma {:induction false} BlanksSkipped(blanks: seq<byte>, t: seq<byte>)
    requires Blank(blanks) && (t == [] || !IsBlank(t[0]))
    ensures SkipBlanks(blanks + t) == t
    decreases |blanks|
  {
    if blanks == [] {
      assert blanks + t == t;
    } else {
      assert (blanks + t)[1..] == blanks[1..] + t;
      BlanksSkipped(blanks[1..], t);
    }
  }

  /** Every number is read, behind any blanks and one sign: a minus negates it modulo 2^64, and what does not fit 64
      bits saturates. */
  lemma NumberIsRead(line: seq<byte>, blanks: seq<byte>, sign: seq<byte>, n: nat, rest: seq<byte>)
    requires Blank(blanks) && NoDigitFirst(rest) && (sign == [] || sign == [43] || sign == [45])
    requires line == [116, 109, 61] + (blanks + (sign + (Digits(n) + rest)))
    ensures ParseTimestamp(line) ==
      if n >= TWO_64 then TWO_64 - 1 else if sign == [45] && n > 0 then TWO_64 - n else n
  {
    hide Digits, ParseDigits, SkipBlanks, ParseUnsigned, Blank;
    var digits := Digits(n) + rest;
    DigitsFirst(n, rest);
    SignedDigits(sign, digits);
    BlanksSkipped(blanks, sign + digits);
    assert line[3..] == blanks + (sign + digits);
    assert line[..3] == [116, 109, 61];
    UnsignedBehindBlanks(line[3..], sign, digits);
  }

  lemma DigitsFirst(n: nat, rest: seq<byte>)
    requires NoDigitFirst(rest)
    ensures Digits(n) + rest != [] && 48 <= (Digits(n) + rest)[0] <= 57 && ParseDigits(Digits(n) + rest, 0) == n
  {
    DigitsAreDigits(n);
    hide Digits, ParseDigits;
    ParseDigitsAppend(Digits(n), rest, 0);
    ParseDigitsInverts(n);
    NoDigitsParsed(rest, n);
  }

  lemma SignedDigits(sign: seq<byte>, digits: seq<byte>)
    requires sign == [] || |sign| == 1
    ensures sign != [] ==> (sign + digits)[1..] == digits && (sign + digits)[0] == sign[0]
    ensures sign == [] ==> sign + digits == digits
  {
  }

  /** What is read once the blanks are skipped. */
  lemma UnsignedBehindBlanks(s: seq<byte>, sign: seq<byte>, digits: seq<byte>)
    requires sign == [] || sign == [43] || sign == [45]
    requires digits != [] && 48 <= digits[0] <= 57 && SkipBlanks(s) == sign + digits
    ensures var n := ParseDigits(digits, 0);
      ParseUnsigned(s) == Some(if n >= TWO_64 then TWO_64 - 1 else if sign == [45] && n > 0 then TWO_64 - n else n)
  {
    hide SkipBlanks, ParseDigits;
    SignedDigits(sign, digits);
  }

  lemma NoDigitsParsed(s: seq<byte>, acc: nat)
    requires NoDigitFirst(s)
    ensures ParseDigits(s, acc) == acc
  {
  }

  /** Without `tm=` at its beginning, or without a digit behind blanks and a sign, a line gives 0. */
  lemma NoNumberIsZero(line: seq<byte>, blanks: seq<byte>, sign: seq<byte>, rest: seq<byte>)
    requires Blank(blanks) && NoDigitFirst(rest) && (sign == [] || sign == [43] || sign == [45])
    requires sign == [] && rest != [] ==> !Blank(rest[..1]) && rest[0] != 43 && rest[0] != 45
    ensures !([116, 109, 61] <= line) ==> ParseTimestamp(line) == 0
    ensures line == [116, 109, 61] + (blanks + (sign + rest)) ==> ParseTimestamp(line) == 0
  {
    if line == [116, 109, 61] + (blanks + (sign + rest)) {
      hide SkipBlanks, ParseDigits;
      assert sign != [] ==> (sign + rest)[1..] == rest;
      assert sign == [] ==> sign + rest == rest;
      if sign == [] && rest != [] { assert rest[..1][0] == rest[0]; }
      BlanksSkipped(blanks, sign + rest);
      assert line[3..] == blanks + (sign + rest);
    }
  }

  /** A time line, character by character. */
  lemma TimeLine()
    ensures TimeText(1030) + [CR, LF] == Ascii("tm=1030\r\n") && ParseTimestamp(Ascii("tm=1030\r\n")) == 1030
  {
    assert Digits(1030) == Digits(103) + [48] && Digits(103) == Digits(10) + [51] && Digits(10) == Digits(1) + [48];
    assert TimeText(1030) + [CR, LF] == Ascii("tm=1030\r\n");
    TimeTextParses(Ascii("tm=1030\r\n"), 0, 1030, [CR, LF]);
    assert Ascii("tm=1030\r\n")[0..9] == Ascii("tm=1030\r\n");
  }

  // ---- frames ----

  datatype CdcFrame = CdcFrame(startTm: nat, payload: seq<byte>, recs: seq<Record>, endTm: nat)

  predicate Sendable(f: CdcFrame) {
    f.startTm < TWO_64 && f.endTm < TWO_64 && forall i :: 0 <= i < |f.recs| ==> f.recs[i][..3] != END
  }

  function Encoded(f: CdcFrame, eol: seq<byte>): seq<byte> {
    (TimeText(f.startTm) + eol) + ((BEGIN_MP + eol) + (f.payload + ((BEGIN_IMU + eol) +
      ((FlatRecords(f.recs) + END) + (eol + (TimeText(f.endTm) + eol))))))
  }

  /** Where the parts of a frame begin, and where the next frame does. */
  datatype Marks = Marks(mp: nat, payload: nat, imu: nat, recs: nat, tail: nat, time: nat, end: nat)

  function MarksOf(p: nat, f: CdcFrame, eol: seq<byte>): Marks {
    var mp := p + |TimeText(f.startTm) + eol|;
    var payload := mp + |BEGIN_MP + eol|;
    var imu := payload + |f.payload|;
    var recs := imu + |BEGIN_IMU + eol|;
    var tail := recs + |FlatRecords(f.recs) + END|;
    var time := tail + |eol|;
    Marks(mp, payload, imu, recs, tail, time, time + |TimeText(f.endTm) + eol|)
  }

  ghost predicate PartsAt(s: seq<byte>, p: nat, f: CdcFrame, eol: seq<byte>, m: Marks) {
    && m == MarksOf(p, f, eol) && p < m.mp < m.payload <= m.imu < m.recs < m.tail < m.time < m.end <= |s|
    && OccursAt(s, TimeText(f.startTm) + eol, p) && OccursAt(s, BEGIN_MP + eol, m.mp)
    && OccursAt(s, f.payload, m.payload)
    && OccursAt(s, BEGIN_IMU + eol, m.imu) && OccursAt(s, FlatRecords(f.recs) + END, m.recs)
    && OccursAt(s, eol, m.tail) && OccursAt(s, TimeText(f.endTm) + eol, m.time)
  }

  /** Seven texts one after the other. */
  lemma SevenParts(s: seq<byte>, p: nat, a: seq<byte>, b: seq<byte>, c: seq<byte>, d: seq<byte>, e: seq<byte>,
                   f: seq<byte>, g: seq<byte>)
    requires OccursAt(s, a + (b + (c + (d + (e + (f + g))))), p)
    ensures OccursAt(s, a, p) && OccursAt(s, b, p + |a|) && OccursAt(s, c, p + |a| + |b|)
    ensures OccursAt(s, d, p + |a| + |b| + |c|) && OccursAt(s, e, p + |a| + |b| + |c| + |d|)
    ensures OccursAt(s, f, p + |a| + |b| + |c| + |d| + |e|)
    ensures OccursAt(s, g, p + |a| + |b| + |c| + |d| + |e| + |f|)
  {
    hide OccursAt;
    var g1 := f + g;
    var g2 := e + g1;
    var g3 := d + g2;
    var g4 := c + g3;
    OccursSplit(s, p, a, b + g4);
    OccursSplit(s, p + |a|, b, g4);
    OccursSplit(s, p + |a| + |b|, c, g3);
    OccursSplit(s, p + |a| + |b| + |c|, d, g2);
    OccursSplit(s, p + |a| + |b| + |c| + |d|, e, g1);
    OccursSplit(s, p + |a| + |b| + |c| + |d| + |e|, f, g);
  }

  lemma OccursInside(s: seq<byte>, needle: seq<byte>, p: nat)
    requires OccursAt(s, needle, p)
    ensures p + |needle| <= |s| && s[p..p + |needle|] == needle
  {
  }

  lemma PartsOfFrame(s: seq<byte>, p: nat, f: CdcFrame, eol: seq<byte>)
    requires IsEol(eol) && OccursAt(s, Encoded(f, eol), p)
    ensures PartsAt(s, p, f, eol, MarksOf(p, f, eol)) && MarksOf(p, f, eol).end == p + |Encoded(f, eol)|
  {
    hide TimeText, FlatRecords, OccursAt;
    SevenParts(s, p, TimeText(f.startTm) + eol, BEGIN_MP + eol, f.payload, BEGIN_IMU + eol, FlatRecords(f.recs) + END,
               eol, TimeText(f.endTm) + eol);
    OccursInside(s, TimeText(f.endTm) + eol, MarksOf(p, f, eol).time);
  }

  /** A time line is found where it stands, and its number is parsed back. */
  lemma TimeFound(s: seq<byte>, p: nat, tm: nat, eol: seq<byte>, end: nat)
    requires tm < TWO_64 && IsEol(eol) && OccursAt(s, TimeText(tm) + eol, p)
    requires end == p + |TimeText(tm) + eol| && p < end <= |s|
    ensures FindLine(s, p, TM) == Some((p, end)) && s[end - 1] == LF
    ensures ParseTimestamp(s[p..end]) == tm
  {
    hide FindLine, Digits, ParseTimestamp, OccursAt, TimeText;
    TimeTextIsLine(tm);
    FindHere(s, p, TimeText(tm), eol, TM);
    TimeTextParses(s, p, tm, eol);
  }

  /** What the reader finds when it stands at the beginning of a frame, and at each of its parts. */
  lemma ReaderFinds(s: seq<byte>, p: nat, f: CdcFrame, eol: seq<byte>, m: Marks)
    requires IsEol(eol) && Sendable(f) && PartsAt(s, p, f, eol, m)
    ensures FindLine(s, p, TM) == Some((p, m.mp)) && s[m.mp - 1] == LF
    ensures ParseTimestamp(s[p..m.mp]) == f.startTm
    ensures FindLine(s, m.mp, BEGIN_MP) == Some((m.mp, m.payload)) && s[m.payload - 1] == LF
    ensures FindLine(s, m.imu, BEGIN_IMU) == Some((m.imu, m.recs)) && s[m.recs - 1] == LF
    ensures FindLine(s, m.tail, TM) == Some((m.time, m.end)) && s[m.end - 1] == LF
    ensures ParseTimestamp(s[m.time..m.end]) == f.endTm
  {
    hide FindLine, ParseTimestamp, OccursAt, TimeText, FlatRecords;
    TimeFound(s, p, f.startTm, eol, m.mp);
    FindHere(s, m.mp, BEGIN_MP, eol, BEGIN_MP);
    FindHere(s, m.imu, BEGIN_IMU, eol, BEGIN_IMU);
    FindNext(s, m.tail, eol, TM);
    TimeFound(s, m.time, f.endTm, eol, m.end);
  }

  /** The records are parsed and nothing behind `END` is touched. */
  lemma ReaderParses(s: seq<byte>, p: nat, f: CdcFrame, eol: seq<byte>, m: Marks)
    requires Sendable(f) && PartsAt(s, p, f, eol, m)
    ensures ParseRecords(s[m.recs..]) == Some((f.recs, m.tail - m.recs))
  {
    var rest := s[m.tail..];
    FlatRecordsLength(f.recs);
    assert s[m.recs..] == FlatRecords(f.recs) + END + rest by {
      assert s[m.recs..] == s[m.recs..m.tail] + rest;
    }
    ParseRecordsInverts(f.recs, rest);
  }

  lemma {:induction false} FlatRecordsLength(recs: seq<Record>)
    ensures |FlatRecords(recs)| == 16 * |recs|
  {
    if recs != [] { FlatRecordsLength(recs[1..]); }
  }

  // ---- skipping a frame ----

  ghost predicate NoEndWithin(s: seq<byte>, from: nat, to: nat) {
    forall k :: from <= k < to ==> !OccursAt(s, END, k)
  }

  lemma EndBegins(s: seq<byte>, k: nat)
    ensures OccursAt(s, END, k) ==> s[k] == END[0]
  {
    if OccursAt(s, END, k) { assert s[k..k + 3][0] == s[k]; }
  }

  /** A line that ends before the only `END` ends does not contain it. */
  lemma LineBeforeEnd(s: seq<byte>, q: nat, n: nat, e: nat)
    requires q + n <= e <= |s| && NoEndWithin(s, q, e)
    ensures !Contains(s[q..q + n], END)
  {
    if Contains(s[q..q + n], END) {
      var i: nat :| i <= n && OccursAt(s[q..q + n], END, i);
      SliceOfSlice(s, q, q + n, i, |END|);
      assert OccursAt(s, END, q + i);
    }
  }

  /** No line goes beyond a line feed. */
  lemma LineStopsAtFeed(s: seq<byte>, q: nat, k: nat)
    requires q < k <= |s| && s[k - 1] == LF
    ensures LineAt(s, q) <= k - q
  {
    var rest, n := s[q..], LineAt(s, q);
    LineLenIsLeast(rest, 0, MAX_LINE, EOL, n);
    assert rest[k - q - 1] == LF;
    assert rest[k - q - 1..k - q] == [LF];
    assert Stops(rest, k - q, MAX_LINE, EOL);
  }

  /** A line ends with a line feed, at the maximum length, or where the bytes end. */
  lemma LineStopsThere(s: seq<byte>, q: nat, n: nat)
    requires q < |s| && n == LineAt(s, q)
    ensures s[q + n - 1] == LF || n == MAX_LINE || q + n == |s|
  {
    var rest := s[q..];
    LineLenIsLeast(rest, 0, MAX_LINE, EOL, n);
    assert rest[n - 1..n] == [rest[n - 1]] && rest[n - 1] == s[q + n - 1];
  }

  /** How the line at `q` ends: at a line feed before `END`, or with the line of `END` at `stop`. */
  lemma LineTowardsEnd(s: seq<byte>, q: nat, l: nat, e: nat, stop: nat, n: nat)
    requires q <= e && l <= e && e + 3 <= stop <= |s| && stop - l <= MAX_LINE
    requires s[stop - 1] == LF && (forall k :: e <= k < stop - 1 ==> s[k] != LF)
    requires l <= q || s[l - 1] == LF
    requires n == LineAt(s, q)
    ensures q + n <= e || q + n == stop
  {
    hide LineAt;
    LineStopsAtFeed(s, q, stop);
    if q < l { LineStopsAtFeed(s, q, l); } else { LineStopsThere(s, q, n); }
  }

  /** The search for `END` passes over all lines before the only `END`, however the bytes before it are cut into lines;
      `l` is the beginning of a line not too long to hold it. */
  lemma {:induction false} FindsTheEnd(s: seq<byte>, q: nat, l: nat, e: nat, stop: nat)
    requires q <= e && l <= e && e + 3 <= stop <= |s| && stop - l <= MAX_LINE
    requires s[stop - 1] == LF && (forall k :: e <= k < stop - 1 ==> s[k] != LF)
    requires l <= q || s[l - 1] == LF
    requires OccursAt(s, END, e) && NoEndWithin(s, q, e)
    ensures FindLine(s, q, END).Some? && FindLine(s, q, END).value.1 == stop
    decreases e - q
  {
    hide LineAt, LineLen;
    var n := LineAt(s, q);
    LineTowardsEnd(s, q, l, e, stop, n);
    if q + n == stop {
      SliceOfSlice(s, q, stop, e - q, |END|);
      assert OccursAt(s[q..stop], END, e - q);
    } else {
      LineBeforeEnd(s, q, n, e);
      FindsTheEnd(s, q + n, l, e, stop);
    }
  }

  /** In a frame the bytes of `END` stand only where they end the records, which fit one line. */
  ghost predicate OneEnd(s: seq<byte>, p: nat, f: CdcFrame, m: Marks) {
    m.tail >= 3 && NoEndWithin(s, p, m.tail - 3) && |f.recs| <= 4095
  }

  /** So the search for `END` stops behind the line that ends the records: the closing time of the frame is still to
      come. */
  lemma SkipFinds(s: seq<byte>, from: nat, p: nat, f: CdcFrame, eol: seq<byte>, m: Marks)
    requires IsEol(eol) && PartsAt(s, p, f, eol, m) && OneEnd(s, p, f, m)
    requires from <= p && NoEndWithin(s, from, p)
    ensures FindLine(s, from, END).Some? && FindLine(s, from, END).value.1 == m.time && s[m.time - 1] == LF
  {
    hide FindLine, OccursAt, NoEndWithin, PartsAt;
    EndMark(s, p, f, eol, m);
    assert NoEndWithin(s, from, m.tail - 3) by { JoinNoEnd(s, from, p, m.tail - 3); }
    FindsTheEnd(s, from, m.recs, m.tail - 3, m.time);
  }

  lemma JoinNoEnd(s: seq<byte>, a: nat, b: nat, c: nat)
    requires NoEndWithin(s, a, b) && NoEndWithin(s, b, c)
    ensures NoEndWithin(s, a, c)
  {
  }

  /** `END` stands behind the records, and the line that it is on ends behind it. */
  lemma EndMark(s: seq<byte>, p: nat, f: CdcFrame, eol: seq<byte>, m: Marks)
    requires IsEol(eol) && PartsAt(s, p, f, eol, m) && |f.recs| <= 4095
    ensures p < m.recs <= m.tail - 3 && m.tail < m.time <= |s| && m.time - m.recs <= MAX_LINE
    ensures OccursAt(s, END, m.tail - 3) && s[m.recs - 1] == LF && s[m.time - 1] == LF
    ensures forall k :: m.tail - 3 <= k < m.time - 1 ==> s[k] != LF
  {
    hide TimeText, FlatRecords;
    FlatRecordsLength(f.recs);
    OccursSplit(s, m.recs, FlatRecords(f.recs), END);
    EndsInFeed(s, m.imu, BEGIN_IMU, eol);
    var end, tail := s[m.tail - 3..m.tail], s[m.tail..m.time];
    assert end == END && tail == eol;
    assert forall k :: m.tail - 3 <= k < m.tail ==> s[k] == end[k - (m.tail - 3)];
    assert forall k :: m.tail <= k < m.time ==> s[k] == tail[k - m.tail];
  }

  /** Behind that line the closing time of the frame is taken for the time of the next one, whose own time is passed
      over. */
  lemma ReaderFindsSkipped(s: seq<byte>, p: nat, f: CdcFrame, m: Marks, g: CdcFrame, n: Marks, eol: seq<byte>)
    requires IsEol(eol) && Sendable(f) && Sendable(g) && PartsAt(s, p, f, eol, m) && PartsAt(s, m.end, g, eol, n)
    ensures FindLine(s, m.time, TM) == Some((m.time, m.end)) && s[m.end - 1] == LF
    ensures ParseTimestamp(s[m.time..m.end]) == f.endTm
    ensures FindLine(s, m.end, BEGIN_MP) == Some((n.mp, n.payload)) && s[n.payload - 1] == LF && s[n.mp - 1] == LF
  {
    hide FindLine, ParseTimestamp, OccursAt, FlatRecords;
    TimeFound(s, m.time, f.endTm, eol, m.end);
    TimeFound(s, m.end, g.startTm, eol, n.mp);
    TimeTextIsLine(g.startTm);
    TimeTextHasNo(g.startTm, eol, 66);
    FindPast(s, m.end, TimeText(g.startTm), eol, BEGIN_MP);
    FindHere(s, n.mp, BEGIN_MP, eol, BEGIN_MP);
  }

  lemma TimeTextHasNo(tm: nat, eol: seq<byte>, b: byte)
    requires IsEol(eol) && (b == 66 || b == 69)
    ensures b !in TimeText(tm) + eol
  {
    DigitsAreDigits(tm);
  }
}
