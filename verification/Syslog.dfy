/** `forward_to_syslog`: quotes what a child writes and sends it line by line, in a fixed buffer. */
module Syslog {
  import opened Collections
  import opened Bytes
  import opened Wrappers

  const NUL: byte := 0
  const NEWLINE: byte := 10
  const BACKSLASH: byte := 92
  const LETTER_X: byte := 120
  const ELLIPSIS: bytes := [32, 46, 46, 46]

  const BUFFER_SIZE: nat := 64000
  /** Where quoting must stop to leave room for the ellipsis, its terminator and one more. */
  const LIMIT: nat := BUFFER_SIZE - (|ELLIPSIS| + 1) - 1

  predicate IsPrint(c: byte) {
    32 <= c < 127
  }

  function Hex(d: int): byte
    requires 0 <= d < 16
  {
    if d < 10 then 48 + d else 55 + d
  }

  function QuotedLength(c: byte): nat {
    if c == BACKSLASH then 2 else if IsPrint(c) then 1 else 4
  }

  function Quoted(c: byte): bytes {
    if c == BACKSLASH then [c, c]
    else if IsPrint(c) then [c]
    else [BACKSLASH, LETTER_X, Hex(c / 16), Hex(c % 16)]
  }

  function Quote(line: bytes): bytes {
    if line == [] then [] else Quote(line[..|line| - 1]) + Quoted(line[|line| - 1])
  }

  /** Writes the quoting of one character in place. */
  method WriteQuoted(buf: array<byte>, p: nat, c: byte)
    requires p + QuotedLength(c) <= buf.Length
    modifies buf
    ensures buf[..p] == old(buf[..p])
    ensures buf[p..p + QuotedLength(c)] == Quoted(c)
    ensures buf[p + QuotedLength(c)..] == old(buf[p + QuotedLength(c)..])
  {
    if c == BACKSLASH {
      buf[p], buf[p + 1] := c, c;
    } else if IsPrint(c) {
      buf[p] := c;
    } else {
      buf[p] := BACKSLASH;
      buf[p + 1] := LETTER_X;
      buf[p + 2] := Hex(c / 16);
      buf[p + 3] := Hex(c % 16);
    }
  }

  // ---------------------------------------------------------------------------------------
  // Unquoting.

  function HexValue(h: byte): Option<int> {
    if 48 <= h <= 57 then Some(h - 48) else if 65 <= h <= 70 then Some(h - 55) else None
  }

  /** The first quoted unit of a message: its character and its length. */
  function ReadUnit(q: bytes): Option<(byte, nat)>
    requires q != []
  {
    if q[0] != 92 then Some((q[0], 1))
    else if |q| >= 2 && q[1] == 92 then Some((92, 2))
    else if |q| >= 4 && q[1] == 120 && HexValue(q[2]).Some? && HexValue(q[3]).Some? then
      Some((HexValue(q[2]).value * 16 + HexValue(q[3]).value, 4))
    else None
  }

  function Unquote(q: bytes): Option<bytes> {
    if q == [] then Some([])
    else
      var unit := ReadUnit(q);
      if unit.None? || unit.value.1 > |q| then None
      else
        var rest := Unquote(q[unit.value.1..]);
        if rest.None? then None else Some([unit.value.0] + rest.value)
  }

  lemma {:induction false} QuotedIsUnit(c: byte, rest: bytes)
    ensures |Quoted(c)| == QuotedLength(c) >= 1
    ensures ReadUnit(Quoted(c) + rest) == Some((c, QuotedLength(c)))
  {
  }

  /** A byte is left alone if it is plain and no backslash; the quoting of any is plain. */
  lemma {:induction false} QuotedIs(c: byte)
    ensures 32 <= c < 127 && c != 92 ==> Quoted(c) == [c]
    ensures Plain(Quoted(c)) && 1 <= |Quoted(c)| <= 4
  {
  }

  const DIGITS: string := "0123456789ABCDEF"

  /** Any other byte is written as its two hexadecimal digits, and a backslash twice. */
  lemma {:induction false} EscapedIs(c: byte)
    ensures Quoted(92) == [92, 92]
    ensures !(32 <= c < 127) ==>
              0 <= c / 16 < 16 && Quoted(c) == [92, 120, DIGITS[c / 16] as int, DIGITS[c % 16] as int]
  {
    DigitIs(c / 16);
    DigitIs(c % 16);
  }

  lemma {:induction false} DigitIs(d: nat)
    requires d < 16
    ensures Hex(d) == DIGITS[d] as int
  {
    var s := "0123456789ABCDEF";
    assert s[d] == if d < 10 then ('0' as int + d) as char else ('A' as int + d - 10) as char;
  }

  /** Bytes that any terminal shows: from the space to the tilde. */
  ghost predicate Plain(q: bytes) {
    forall k :: 0 <= k < |q| ==> 32 <= q[k] < 127
  }

  lemma {:induction false} QuoteAppend(a: bytes, b: bytes)
    ensures Quote(a + b) == Quote(a) + Quote(b)
  {
    if b == [] {
      assert a + b == a;
    } else {
      var init, last := b[..|b| - 1], b[|b| - 1];
      assert a + b == (a + init) + [last] && b == init + [last];
      QuoteAppend(a, init);
      ConcatAssociates(Quote(a), Quote(init), Quoted(last));
    }
  }

  /** Unquoting a quoted line gives the line back, so quoting is injective. */
  lemma {:induction false} UnquoteQuote(line: bytes)
    ensures Unquote(Quote(line)) == Some(line)
  {
    if line != [] {
      var c, rest := line[0], line[1..];
      assert line == [c] + rest;
      QuoteAppend([c], rest);
      assert Quote([c]) == Quoted(c) by { assert [c][..0] == []; }
      QuotedIsUnit(c, Quote(rest));
      assert Quote(line)[QuotedLength(c)..] == Quote(rest);
      UnquoteQuote(rest);
    }
  }

  lemma {:induction false} PlainAppend(a: bytes, b: bytes)
    requires Plain(a) && Plain(b)
    ensures Plain(a + b)
  {
  }

  /** A quoting is plain, at least as long as what is quoted and at most four times that. */
  lemma {:induction false} QuotePrints(line: bytes)
    ensures Plain(Quote(line))
    ensures |line| <= |Quote(line)| <= 4 * |line|
  {
    if line != [] {
      QuotePrints(line[..|line| - 1]);
      QuotedIs(line[|line| - 1]);
      PlainAppend(Quote(line[..|line| - 1]), Quoted(line[|line| - 1]));
    }
  }

  /** What is plain and has no backslash stays as it is. */
  lemma {:induction false} PlainStays(line: bytes, n: nat)
    requires n <= |line| && forall k :: 0 <= k < n ==> 32 <= line[k] < 127 && line[k] != 92
    ensures Quote(line[..n]) == line[..n]
  {
    if n > 0 {
      PlainStays(line, n - 1);
      QuotedIs(line[n - 1]);
      QuoteNext(line, n - 1);
      SliceNext(line, n - 1);
    }
  }

  lemma {:induction false} QuoteNext(line: bytes, n: nat)
    requires n < |line|
    ensures Quote(line[..n + 1]) == Quote(line[..n]) + Quoted(line[n])
  {
    var longer := line[..n + 1];
    assert longer[..n] == line[..n] && longer[n] == line[n];
  }

  // ---------------------------------------------------------------------------------------
  // Messages.

  /** The longest part of a line whose quoting stays below the limit. */
  function Fitting(line: bytes): (r: bytes)
    ensures r <= line && |Quote(r)| < LIMIT
    ensures r != line ==> |Quote(line[..|r| + 1])| >= LIMIT
  {
    if |Quote(line)| < LIMIT then line
    else
      var init := line[..|line| - 1];
      var r := Fitting(init);
      assert line[..|r| + 1] == if r == init then line else init[..|r| + 1];
      r
  }

  /** The message sent for a line: its quoting, cut short if it does not fit. */
  function Render(line: bytes): bytes {
    if |Quote(line)| < LIMIT then Quote(line) else Quote(Fitting(line)) + ELLIPSIS
  }

  lemma {:induction false} QuoteGrows(a: bytes, b: bytes)
    requires a <= b
    ensures |Quote(a)| <= |Quote(b)|
    ensures a != b ==> |Quote(a)| < |Quote(b)|
  {
    assert b == a + b[|a|..];
    QuoteAppend(a, b[|a|..]);
    QuotePrints(b[|a|..]);
  }

  /** Nothing longer fits. */
  lemma {:induction false} FittingIsLongest(line: bytes, p: bytes)
    requires p <= line && |Quote(p)| < LIMIT
    ensures p <= Fitting(line)
  {
    var r := Fitting(line);
    if |r| < |p| {
      QuoteGrows(line[..|r| + 1], p);
    }
  }

  /** A truncated message is told from a full one by its length alone. */
  lemma {:induction false} TruncatedByLength(line: bytes)
    ensures |Render(line)| < BUFFER_SIZE - 2
    ensures |Render(line)| >= LIMIT <==> |Quote(line)| >= LIMIT
  {
    var r := Fitting(line);
    if r != line {
      var next := line[..|r| + 1];
      assert next[..|next| - 1] == r;
      QuotedIs(next[|next| - 1]);
    }
  }

  /** Every message is plain and ends in the buffer of 64000 bytes with its terminator. */
  lemma {:induction false} RenderPrints(line: bytes)
    ensures Plain(Render(line)) && |Render(line)| <= 63997
  {
    TruncatedByLength(line);
    QuotePrints(line);
    QuotePrints(Fitting(line));
    PlainAppend(Quote(Fitting(line)), ELLIPSIS);
  }

  /** A plain line of less than 63994 bytes without a backslash is sent unchanged. */
  lemma {:induction false} PlainSent(line: bytes)
    requires Plain(line) && 92 !in line && |line| < 63994
    ensures Render(line) == line
  {
    PlainStays(line, |line|);
    assert line[..|line|] == line;
  }

  /** Whatever is in a line of at most 15998 bytes, all of it can be read from its message. */
  lemma {:induction false} ShortComesBack(line: bytes)
    requires |line| <= 15998
    ensures Unquote(Render(line)) == Some(line)
  {
    QuotePrints(line);
    UnquoteQuote(line);
  }

  /**
   A line comes back whole if its quoting is shorter than 63994 bytes. Of any other the message has
   the beginning and an ellipsis: at least 63990 bytes of quoting, and no more would have fitted.
   */
  lemma {:induction false} MessageReads(line: bytes)
    ensures |Quote(line)| < 63994 ==> Unquote(Render(line)) == Some(line)
    ensures |Quote(line)| >= 63994 ==>
              var n := |Render(line)| - 4;
              && 63990 <= n < 63994 && Render(line)[n..] == [32, 46, 46, 46]
              && Unquote(Render(line)[..n]) == Some(Fitting(line))
              && Fitting(line) < line && |Quote(line[..|Fitting(line)| + 1])| >= 63994
  {
    UnquoteQuote(line);
    if |Quote(line)| >= 63994 {
      var r := Fitting(line);
      UnquoteQuote(r);
      var next := line[..|r| + 1];
      assert next[..|next| - 1] == r;
      QuotedIs(next[|next| - 1]);
      assert Render(line) == Quote(r) + ELLIPSIS;
      assert Render(line)[..|Quote(r)|] == Quote(r);
    }
  }

  /** Equal messages come from equal lines, or from long lines with the same beginning. */
  lemma {:induction false} RenderInjective(a: bytes, b: bytes)
    requires Render(a) == Render(b)
    ensures a == b || (|Quote(a)| >= LIMIT && |Quote(b)| >= LIMIT && Fitting(a) == Fitting(b))
  {
    TruncatedByLength(a);
    TruncatedByLength(b);
    UnquoteQuote(a);
    UnquoteQuote(b);
    if |Quote(a)| >= LIMIT {
      assert Quote(Fitting(a)) == Render(a)[..|Render(a)| - 4];
      assert Quote(Fitting(b)) == Render(b)[..|Render(b)| - 4];
      UnquoteQuote(Fitting(a));
      UnquoteQuote(Fitting(b));
    }
  }

  /** Once a line overflows, the rest of it does not matter. */
  lemma {:induction false} RenderStable(line: bytes, more: bytes)
    requires |Quote(line)| >= LIMIT
    ensures Render(line + more) == Render(line)
  {
    QuoteGrows(line, line + more);
    FittingStable(line, line + more);
  }

  lemma {:induction false} FittingStable(line: bytes, longer: bytes)
    requires line <= longer && |Quote(line)| >= LIMIT
    ensures Fitting(longer) == Fitting(line)
  {
    var b := Fitting(longer);
    FittingIsLongest(longer, Fitting(line));
    if |b| >= |line| {
      QuoteGrows(line, b);
    }
    FittingIsLongest(line, b);
  }

  // ---------------------------------------------------------------------------------------
  // Lines.

  /** The non-empty lines of `rest`, the first of which has begun with `line`. */
  function Lines(line: bytes, rest: bytes): seq<bytes>
    decreases |rest|
  {
    if rest == [] then Complete(line)
    else if rest[0] == NEWLINE then Complete(line) + Lines([], rest[1..])
    else Lines(line + [rest[0]], rest[1..])
  }

  function Complete(line: bytes): seq<bytes> {
    if line == [] then [] else [line]
  }

  function Messages(lines: seq<bytes>): (r: seq<bytes>)
    ensures |r| == |lines|
    ensures forall k :: 0 <= k < |lines| ==> r[k] == Render(lines[k])
  {
    seq(|lines|, k requires 0 <= k < |lines| => Render(lines[k]))
  }

  function Concat(lines: seq<bytes>): bytes {
    if lines == [] then [] else lines[0] + Concat(lines[1..])
  }

  function WithoutNewlines(input: bytes): bytes {
    if input == [] then []
    else (if input[0] == NEWLINE then [] else [input[0]]) + WithoutNewlines(input[1..])
  }

  /** Splitting loses nothing but newlines, and leaves no line empty. */
  lemma {:induction false} LinesComplete(line: bytes, rest: bytes)
    requires NEWLINE !in line
    ensures Concat(Lines(line, rest)) == line + WithoutNewlines(rest)
    ensures forall k :: 0 <= k < |Lines(line, rest)| ==> Lines(line, rest)[k] != [] && NEWLINE !in Lines(line, rest)[k]
    decreases |rest|
  {
    if rest == [] {
    } else if rest[0] == NEWLINE {
      LinesComplete([], rest[1..]);
      var tail := Lines([], rest[1..]);
      if line != [] {
        assert ([line] + tail)[1..] == tail;
      } else {
        assert Complete(line) + tail == tail;
      }
    } else {
      LinesComplete(line + [rest[0]], rest[1..]);
    }
  }

  /** A newline ends a line, wherever it is; nothing else does. */
  lemma {:induction false} LinesAtNewline(line: bytes, a: bytes, b: bytes)
    ensures Lines(line, a + [10] + b) == Lines(line, a) + Lines([], b)
    ensures 10 !in a && line + a != [] ==> Lines(line, a) == [line + a]
    ensures Lines([], []) == []
    decreases |a|
  {
    var s := a + [10] + b;
    if a == [] {
      assert s[1..] == b && line + a == line;
    } else {
      assert s[1..] == a[1..] + [10] + b;
      if a[0] == 10 {
        LinesAtNewline([], a[1..], b);
        ConcatAssociates(Complete(line), Lines([], a[1..]), Lines([], b));
      } else {
        LinesAtNewline(line + [a[0]], a[1..], b);
        assert line + a == (line + [a[0]]) + a[1..];
      }
    }
  }

  /** The lines that come after the one being read. */
  function LinesAfter(rest: bytes): seq<bytes> {
    if rest == [] then [] else if rest[0] == NEWLINE then Lines([], rest[1..]) else LinesAfter(rest[1..])
  }

  /** The message of an overflowing line can be sent before its end is read. */
  lemma {:induction false} SendEarly(line: bytes, rest: bytes)
    requires |Quote(line)| >= LIMIT
    ensures Messages(Lines(line, rest)) == [Render(line)] + Messages(LinesAfter(rest))
    decreases |rest|
  {
    if rest == [] {
    } else if rest[0] == NEWLINE {
      assert Messages([line] + Lines([], rest[1..])) == [Render(line)] + Messages(Lines([], rest[1..]));
    } else {
      RenderStable(line, [rest[0]]);
      QuoteGrows(line, line + [rest[0]]);
      SendEarly(line + [rest[0]], rest[1..]);
    }
  }

  // ---------------------------------------------------------------------------------------
  // The loop.

  /** What `syslog` reads from a buffer: everything before the first terminator. */
  function CString(buf: bytes): bytes {
    if buf == [] || buf[0] == NUL then [] else [buf[0]] + CString(buf[1..])
  }

  lemma {:induction false} CStringReads(text: bytes, rest: bytes)
    requires NUL !in text && rest != [] && rest[0] == NUL
    ensures CString(text + rest) == text
  {
    if text == [] {
      assert text + rest == rest;
    } else {
      assert (text + rest)[1..] == text[1..] + rest;
      CStringReads(text[1..], rest);
    }
  }

  lemma {:induction false} Terminated(buf: bytes, n: nat)
    requires n < |buf| && buf[n] == NUL && forall k :: 0 <= k < n ==> 32 <= buf[k] < 127
    ensures CString(buf) == buf[..n]
  {
    assert buf == buf[..n] + buf[n..];
    CStringReads(buf[..n], buf[n..]);
  }

  /** `strcpy` of the ellipsis with its terminator. */
  method WriteEllipsis(buf: array<byte>, p: nat)
    requires p + 5 <= buf.Length
    modifies buf
    ensures buf[..p + 4] == old(buf[..p]) + ELLIPSIS && buf[p + 4] == NUL
  {
    buf[p], buf[p + 1], buf[p + 2], buf[p + 3], buf[p + 4] := 32, 46, 46, 46, NUL;
    assert buf[..p + 4] == buf[..p] + buf[p..p + 4];
  }

  /** Terminates the buffer after a whole line and sends it. */
  method SendLine(buf: array<byte>, dest: nat, ghost line: bytes) returns (message: bytes)
    requires dest < buf.Length && buf[..dest] == Quote(line)
    modifies buf
    ensures buf[..dest] == old(buf[..dest])
    ensures message == Quote(line)
  {
    buf[dest] := NUL;
    QuotePrints(line);
    assert forall k :: 0 <= k < dest ==> buf[k] == buf[..dest][k];
    Terminated(buf[..], dest);
    message := CString(buf[..]);
    assert buf[..][..dest] == buf[..dest];
  }

  /** Cuts a line that no longer fits and sends what there is of it. */
  method SendCut(buf: array<byte>, dest: nat, ghost line: bytes, ghost c: byte) returns (message: bytes)
    requires dest + 5 <= buf.Length && buf[..dest] == Quote(line)
    requires |Quote(line)| < LIMIT <= |Quote(line + [c])|
    modifies buf
    ensures message == Render(line + [c])
  {
    WriteEllipsis(buf, dest);
    CutPrints(line);
    assert forall k :: 0 <= k < dest + 4 ==> buf[k] == (Quote(line) + ELLIPSIS)[k];
    Terminated(buf[..], dest + 4);
    message := CString(buf[..]);
    assert buf[..][..dest + 4] == buf[..dest + 4];
    CutIsRender(line, c);
  }

  lemma {:induction false} CutPrints(line: bytes)
    ensures Plain(Quote(line) + ELLIPSIS)
  {
    QuotePrints(line);
    PlainAppend(Quote(line), ELLIPSIS);
  }

  lemma {:induction false} CutIsRender(line: bytes, c: byte)
    requires |Quote(line)| < LIMIT <= |Quote(line + [c])|
    ensures Render(line + [c]) == Quote(line) + ELLIPSIS
  {
    assert (line + [c])[..|line|] == line;
    FittingIsLongest(line + [c], line);
  }

  /** The messages of the lines that are still to come. */
  ghost function ToSend(line: bytes, overflowed: bool, rest: bytes): seq<bytes> {
    if overflowed then Messages(LinesAfter(rest)) else Messages(Lines(line, rest))
  }

  lemma {:induction false} ToSendAtNewline(line: bytes, overflowed: bool, rest: bytes)
    requires rest != [] && rest[0] == NEWLINE
    ensures ToSend(line, overflowed, rest)
         == (if overflowed || line == [] then [] else [Render(line)]) + ToSend([], false, rest[1..])
  {
    var later := Lines([], rest[1..]);
    if overflowed {
      assert [] + Messages(later) == Messages(later);
    } else {
      MessagesAppend(Complete(line), later);
    }
  }

  lemma {:induction false} MessagesAppend(a: seq<bytes>, b: seq<bytes>)
    ensures Messages(a + b) == Messages(a) + Messages(b)
  {
  }

  lemma {:induction false} ToSendAtByte(line: bytes, overflowed: bool, rest: bytes)
    requires rest != [] && rest[0] != NEWLINE
    ensures overflowed ==> ToSend(line, overflowed, rest) == ToSend(line, true, rest[1..])
    ensures !overflowed && |Quote(line + [rest[0]])| < LIMIT ==>
              ToSend(line, overflowed, rest) == ToSend(line + [rest[0]], false, rest[1..])
    ensures !overflowed && |Quote(line + [rest[0]])| >= LIMIT ==>
              ToSend(line, overflowed, rest) == [Render(line + [rest[0]])] + ToSend(line, true, rest[1..])
  {
    if !overflowed && |Quote(line + [rest[0]])| >= LIMIT {
      SendEarly(line + [rest[0]], rest[1..]);
    }
  }

  /** The buffer holds the quoting of what there is of the line, unless the line was cut. */
  ghost predicate Buffered(buf: bytes, dest: nat, overflowed: bool, line: bytes) {
    |buf| == BUFFER_SIZE && dest < LIMIT && (!overflowed ==> buf[..dest] == Quote(line))
  }

  /** The end of a line, or of the stream: sends the line if there is one that was not cut. */
  method EndLine(buf: array<byte>, dest: nat, overflowed: bool, ghost line: bytes) returns (messages: seq<bytes>)
    requires Buffered(buf[..], dest, overflowed, line)
    modifies buf
    ensures messages == if overflowed || line == [] then [] else [Render(line)]
  {
    messages := [];
    if !overflowed && dest != 0 {
      assert buf[..dest] == buf[..][..dest];
      var message := SendLine(buf, dest, line);
      messages := [message];
    }
  }

  /** Any other byte: quotes it, or cuts the line where it no longer fits. */
  method AddByte(buf: array<byte>, dest: nat, overflowed: bool, ch: byte, ghost line: bytes, ghost rest: bytes)
    returns (messages: seq<bytes>, dest': nat, overflowed': bool, ghost line': bytes)
    requires Buffered(buf[..], dest, overflowed, line) && rest != [] && rest[0] == ch != NEWLINE
    modifies buf
    ensures Buffered(buf[..], dest', overflowed', line')
    ensures ToSend(line, overflowed, rest) == messages + ToSend(line', overflowed', rest[1..])
  {
    messages, dest', overflowed', line' := [], dest, overflowed, line;
    ToSendAtByte(line, overflowed, rest);
    if overflowed {
      return;
    }
    assert buf[..dest] == buf[..][..dest];
    QuoteAppend(line, [ch]);
    QuoteOne(ch);
    QuotedIsUnit(ch, []);
    var quotedLen := QuotedLength(ch);
    if dest + quotedLen >= LIMIT {
      var message := SendCut(buf, dest, line, ch);
      messages, overflowed' := [message], true;
      return;
    }
    WriteQuoted(buf, dest, ch);
    dest', line' := dest + quotedLen, line + [ch];
    QuotedNext(buf[..], dest, line, ch);
  }

  lemma {:induction false} QuotedNext(buf: bytes, dest: nat, line: bytes, ch: byte)
    requires dest + QuotedLength(ch) <= |buf| && buf[..dest] == Quote(line)
    requires buf[dest..dest + QuotedLength(ch)] == Quoted(ch)
    ensures buf[..dest + QuotedLength(ch)] == Quote(line + [ch])
  {
    QuoteAppend(line, [ch]);
    QuoteOne(ch);
    assert buf[..dest + QuotedLength(ch)] == buf[..dest] + buf[dest..dest + QuotedLength(ch)];
  }

  lemma {:induction false} QuoteOne(ch: byte)
    ensures Quote([ch]) == Quoted(ch)
  {
    assert [ch][..0] == [];
  }

  lemma {:induction false} MessagesRead(lines: seq<bytes>)
    ensures forall k :: 0 <= k < |lines| ==> Plain(Messages(lines)[k])
    ensures forall k :: 0 <= k < |lines| && |lines[k]| <= 15998 ==> Unquote(Messages(lines)[k]) == Some(lines[k])
  {
    forall k | 0 <= k < |lines| ensures Plain(Messages(lines)[k]) {
      RenderPrints(lines[k]);
    }
    forall k | 0 <= k < |lines| && |lines[k]| <= 15998 ensures Unquote(Messages(lines)[k]) == Some(lines[k]) {
      ShortComesBack(lines[k]);
    }
  }

  /** The whole of `forward_to_syslog`: what it sends for a stream, up to its end. */
  method ForwardToSyslog(input: bytes) returns (sent: seq<bytes>)
    ensures sent == Messages(Lines([], input))
    ensures forall k, i :: 0 <= k < |sent| && 0 <= i < |sent[k]| ==> 32 <= sent[k][i] < 127
    ensures forall k :: 0 <= k < |sent| && |Lines([], input)[k]| <= 15998 ==> Unquote(sent[k]) == Some(Lines([], input)[k])
  {
    var buf := new byte[BUFFER_SIZE](_ => 0);
    var dest, overflowed, i := 0, false, 0;
    ghost var line: bytes := [];
    ghost var goal := Messages(Lines([], input));
    sent := [];
    assert input[0..] == input;
    while true
      invariant 0 <= i <= |input| && Buffered(buf[..], dest, overflowed, line)
      invariant goal == sent + ToSend(line, overflowed, input[i..])
      decreases |input| - i
    {
      ghost var before, rest := sent, input[i..];
      var messages;
      if i == |input| || input[i] == NEWLINE {
        messages := EndLine(buf, dest, overflowed, line);
        sent := sent + messages;
        if i == |input| {
          MessagesRead(Lines([], input));
          return;
        }
        ToSendAtNewline(line, overflowed, rest);
        overflowed, dest, line := false, 0, [];
      } else {
        messages, dest, overflowed, line := AddByte(buf, dest, overflowed, input[i], line, rest);
        sent := sent + messages;
      }
      i := i + 1;
      assert input[i..] == rest[1..];
      ConcatAssociates(before, messages, ToSend(line, overflowed, rest[1..]));
    }
  }
}
