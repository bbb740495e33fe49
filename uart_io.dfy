/**
  The console line editor of App/Utils/uart_io.c.

  `serial_scan` reads one byte at a time from the UART and edits a line in a
  caller-supplied buffer: printable input is stored and echoed while there is
  room, backspace erases the last stored character on screen and in the write
  index, and CR or LF ends the line.  The bytes that the receive call delivered
  are the parameter `keys`; the bytes the editor transmits back are returned as
  `sent`.  The pure functions `EditedLine` and `Echo` say what one line of
  keys should produce; `Render` is an independent reference for what a
  terminal shows after receiving the echo.
*/
module UartIo {

  /** A `uint8_t`. */
  newtype Byte = x: int | 0 <= x < 256

  /** A `uint16_t`. */
  type Uint16 = x: nat | x < 0x1_0000

  const Nul: Byte := 0
  const Backspace: Byte := 8
  const LineFeed: Byte := 10
  const CarriageReturn: Byte := 13
  const Space: Byte := 32

  /** What `serial_backspace_destructive` sends per erased character: "\b \b". */
  const EraseSequence: seq<Byte> := [Backspace, Space, Backspace]

  /** What `serial_newline` sends: "\r\n". */
  const Newline: seq<Byte> := [CarriageReturn, LineFeed]

  predicate IsTerminator(c: Byte) {
    c == LineFeed || c == CarriageReturn
  }

  predicate HasTerminator(keys: seq<Byte>) {
    exists k :: 0 <= k < |keys| && IsTerminator(keys[k])
  }

  lemma HasTerminatorTail(keys: seq<Byte>)
    requires HasTerminator(keys) && !IsTerminator(keys[0])
    ensures HasTerminator(keys[1..])
  {
    var k :| 0 <= k < |keys| && IsTerminator(keys[k]);
    assert keys[1..][k - 1] == keys[k];
  }

  /** The position of the first CR or LF: the key that ends the line. */
  function TerminatorIndex(keys: seq<Byte>): (t: nat)
    requires HasTerminator(keys)
    ensures t < |keys| && IsTerminator(keys[t])
    ensures forall k :: 0 <= k < t ==> !IsTerminator(keys[k])
  {
    if IsTerminator(keys[0]) then 0
    else
      HasTerminatorTail(keys);
      TerminatorIndex(keys[1..]) + 1
  }

  /**
    The line after one more key (never a terminator): backspace drops the
    last character if there is one, any other byte is appended while the
    line is shorter than `maxLen` and dropped otherwise.
  */
  function EditKey(line: seq<Byte>, c: Byte, maxLen: nat): seq<Byte> {
    if c == Backspace then
      if |line| > 0 then line[..|line| - 1] else line
    else if |line| >= maxLen then line
    else line + [c]
  }

  /** What the console echoes for that key, given the line before it. */
  function KeyEcho(line: seq<Byte>, c: Byte, maxLen: nat): seq<Byte> {
    if c == Backspace then
      if |line| > 0 then EraseSequence else []
    else if |line| >= maxLen then []
    else [c]
  }

  /** The edited line: the keys applied one after another to an empty line. */
  function EditedLine(keys: seq<Byte>, maxLen: nat): (line: seq<Byte>)
    ensures |line| <= maxLen
    ensures |line| <= |keys|
  {
    if keys == [] then []
    else EditKey(EditedLine(keys[..|keys| - 1], maxLen), keys[|keys| - 1], maxLen)
  }

  /** Everything echoed while the keys are edited, in order. */
  function Echo(keys: seq<Byte>, maxLen: nat): seq<Byte> {
    if keys == [] then []
    else
      var init := keys[..|keys| - 1];
      Echo(init, maxLen) + KeyEcho(EditedLine(init, maxLen), keys[|keys| - 1], maxLen)
  }

  /** The line a call of `serial_scan` edits: the keys before the first terminator. */
  function ScannedLine(keys: seq<Byte>, maxLen: nat): (line: seq<Byte>)
    requires HasTerminator(keys)
    ensures |line| <= maxLen
  {
    EditedLine(keys[..TerminatorIndex(keys)], maxLen)
  }

  /**
    A reference terminal: what a screen line holding `screen` shows after
    `out` arrives, where "\b \b" erases the last character and every other
    byte is shown.
  */
  function Render(screen: seq<Byte>, out: seq<Byte>): seq<Byte>
    decreases |out|
  {
    if out == [] then screen
    else if |out| >= 3 && out[..3] == EraseSequence then
      Render(if |screen| > 0 then screen[..|screen| - 1] else screen, out[3..])
    else Render(screen + [out[0]], out[1..])
  }

  /** `count` erase sequences, as `serial_backspace_destructive(count)` sends them. */
  function Erasures(count: nat): (out: seq<Byte>)
    ensures |out| == 3 * count
  {
    if count == 0 then [] else EraseSequence + Erasures(count - 1)
  }

  lemma {:induction false} ErasuresSnoc(count: nat)
    ensures Erasures(count + 1) == Erasures(count) + EraseSequence
  {
    if count > 0 {
      ErasuresSnoc(count - 1);
    }
  }

  /** Sending `count` erase sequences removes the last `count` characters shown. */
  lemma {:induction false} RenderErasures(screen: seq<Byte>, count: nat)
    ensures Render(screen, Erasures(count)) == screen[..if count < |screen| then |screen| - count else 0]
  {
    if count > 0 {
      var out := Erasures(count);
      assert out[..3] == EraseSequence && out[3..] == Erasures(count - 1);
      RenderErasures(if |screen| > 0 then screen[..|screen| - 1] else screen, count - 1);
    }
  }

  /** `serial_backspace_destructive`: one "\b \b" per count, in a loop. */
  method BackspaceDestructive(count: Uint16) returns (sent: seq<Byte>)
    ensures sent == Erasures(count)
  {
    sent := [];
    var idx: Uint16 := 0;
    while idx < count
      invariant idx <= count
      invariant sent == Erasures(idx)
    {
      ErasuresSnoc(idx);
      sent := sent + EraseSequence;
      idx := idx + 1;
    }
  }

  /**
    The echo, shown on a terminal, reproduces the edited line; `rest` is
    whatever is sent afterwards.
  */
  lemma {:induction false} EchoRendersLine(keys: seq<Byte>, maxLen: nat, rest: seq<Byte>)
    ensures Render([], Echo(keys, maxLen) + rest) == Render(EditedLine(keys, maxLen), rest)
  {
    if keys != [] {
      var init, c := keys[..|keys| - 1], keys[|keys| - 1];
      var line := EditedLine(init, maxLen);
      var step := KeyEcho(line, c, maxLen);
      assert Echo(keys, maxLen) == Echo(init, maxLen) + step;
      assert Echo(keys, maxLen) + rest == Echo(init, maxLen) + (step + rest);
      EchoRendersLine(init, maxLen, step + rest);
      assert Render([], Echo(keys, maxLen) + rest) == Render(line, step + rest);
      assert EditedLine(keys, maxLen) == EditKey(line, c, maxLen);
      if c == Backspace && |line| > 0 {
        var out := EraseSequence + rest;
        assert out[..3] == EraseSequence && out[3..] == rest;
        assert Render(line, out) == Render(line[..|line| - 1], rest);
      } else if c != Backspace && |line| < maxLen {
        var out := [c] + rest;
        assert out[0] == c && out[1..] == rest;
        assert |out| >= 3 ==> out[..3][0] != Backspace;
        assert Render(line, out) == Render(line + [c], rest);
      } else {
        assert step + rest == rest;
      }
    } else {
      assert Echo(keys, maxLen) + rest == rest;
    }
  }

  /** The whole echo of a line shows exactly that line. */
  lemma EchoShowsLine(keys: seq<Byte>, maxLen: nat)
    ensures Render([], Echo(keys, maxLen)) == EditedLine(keys, maxLen)
  {
    EchoRendersLine(keys, maxLen, []);
    assert Echo(keys, maxLen) + [] == Echo(keys, maxLen);
  }

  /**
    Without backspace the line is the first `maxLen` keys, and each stored
    key is echoed once, in order; keys past the limit are dropped silently.
  */
  lemma {:induction false} PlainTypingTruncates(keys: seq<Byte>, maxLen: nat)
    requires forall k :: 0 <= k < |keys| ==> keys[k] != Backspace
    ensures EditedLine(keys, maxLen) == keys[..if |keys| < maxLen then |keys| else maxLen]
    ensures Echo(keys, maxLen) == EditedLine(keys, maxLen)
  {
    if keys != [] {
      var init := keys[..|keys| - 1];
      PlainTypingTruncates(init, maxLen);
      if |init| < maxLen {
        assert init + [keys[|keys| - 1]] == keys;
      }
    }
  }

  /** Backspace right after a stored key takes exactly that key back. */
  lemma BackspaceUndoesKey(keys: seq<Byte>, c: Byte, maxLen: nat)
    requires c != Backspace && |EditedLine(keys, maxLen)| < maxLen
    ensures EditedLine(keys + [c, Backspace], maxLen) == EditedLine(keys, maxLen)
    ensures Echo(keys + [c, Backspace], maxLen) == Echo(keys, maxLen) + [c] + EraseSequence
  {
    var once := keys + [c];
    assert (keys + [c, Backspace])[..|keys| + 1] == once;
    assert once[..|keys|] == keys;
  }

  /** Backspace on an empty line changes nothing and echoes nothing. */
  lemma BackspaceOnEmptyLine(keys: seq<Byte>, maxLen: nat)
    requires EditedLine(keys, maxLen) == []
    ensures EditedLine(keys + [Backspace], maxLen) == []
    ensures Echo(keys + [Backspace], maxLen) == Echo(keys, maxLen)
  {
    assert (keys + [Backspace])[..|keys|] == keys;
  }

  /** `bzero(buffer, n)`: the first `n` bytes become NUL, the others stay. */
  method Bzero(buffer: array<Byte>, n: nat)
    requires n <= buffer.Length
    modifies buffer
    ensures forall j :: 0 <= j < n ==> buffer[j] == Nul
    ensures forall j :: n <= j < buffer.Length ==> buffer[j] == old(buffer[j])
  {
    forall j | 0 <= j < n {
      buffer[j] := Nul;
    }
  }

  lemma EditStep(keys: seq<Byte>, i: nat, maxLen: nat)
    requires i < |keys|
    ensures EditedLine(keys[..i + 1], maxLen) == EditKey(EditedLine(keys[..i], maxLen), keys[i], maxLen)
    ensures Echo(keys[..i + 1], maxLen) == Echo(keys[..i], maxLen) + KeyEcho(EditedLine(keys[..i], maxLen), keys[i], maxLen)
  {
    assert keys[..i + 1][..i] == keys[..i];
  }

  /**
    The layout `serial_scan` keeps in the buffer while it edits: the line so
    far, then NUL up to `m`, the byte at `m` NUL or original (a backspace
    at index `m` clears it), and the bytes after `m` as they were.
  */
  ghost predicate Layout(buf: seq<Byte>, original: seq<Byte>, line: seq<Byte>, m: nat) {
    && |line| <= m < |buf| == |original|
    && buf[..|line|] == line
    && (forall j :: |line| < j < m ==> buf[j] == Nul)
    && (buf[m] == Nul || buf[m] == original[m])
    && (forall j :: m < j < |buf| ==> buf[j] == original[j])
  }

  /** Writing the byte one edit step writes keeps the layout, for the edited line. */
  lemma EditKeepsLayout(before: seq<Byte>, after: seq<Byte>, original: seq<Byte>,
                        line: seq<Byte>, c: Byte, m: nat)
    requires Layout(before, original, line, m)
    requires after == before[|line| :=
      if c == Backspace then (if |line| > 0 then Nul else before[|line|])
      else if |line| >= m then before[|line|]
      else c]
    ensures Layout(after, original, EditKey(line, c, m), m)
  {
    var next := EditKey(line, c, m);
    if c == Backspace && |line| > 0 {
      assert after[..|next|] == before[..|next|] == line[..|line| - 1];
    } else if c != Backspace && |line| < m {
      assert after[..|next|] == before[..|line|] + [c];
    } else {
      assert after[..|next|] == before[..|line|];
    }
  }

  /**
    The body of the `serial_scan` loop for a key that is not a terminator:
    the `switch` on backspace and on the default case.  `line` is the line
    stored so far.
  */
  method EditInBuffer(buffer: array<Byte>, idx: Byte, maxLen: Byte, c: Byte,
                      ghost line: seq<Byte>, ghost original: seq<Byte>)
    returns (next: Byte, echo: seq<Byte>)
    requires idx as int == |line| && Layout(buffer[..], original, line, maxLen as int)
    modifies buffer
    ensures next as int == |EditKey(line, c, maxLen as int)|
    ensures Layout(buffer[..], original, EditKey(line, c, maxLen as int), maxLen as int)
    ensures echo == KeyEcho(line, c, maxLen as int)
    ensures buffer[..] == old(buffer[..])[idx as int :=
      if c == Backspace then (if idx > 0 then Nul else old(buffer[idx]))
      else if idx >= maxLen then old(buffer[idx])
      else c]
  {
    next, echo := idx, [];
    if c == Backspace {
      if idx > 0 {
        buffer[idx] := Nul;
        echo := BackspaceDestructive(1);
        assert echo == EraseSequence;
        next := idx - 1;
      }
    } else if idx >= maxLen {
      // no room: the key is dropped without echo
    } else {
      buffer[idx] := c;
      echo := [c];
      next := idx + 1;
    }
    EditKeepsLayout(old(buffer[..]), buffer[..], original, line, c, maxLen as int);
  }

  /**
    The `for(;;)` loop of `serial_scan` up to the first CR or LF, starting
    from an empty line over a buffer whose first `max_len` bytes are NUL.
    Returns the write index, the position of the terminator and the echo.
  */
  method EditUntilTerminator(buffer: array<Byte>, maxLen: Byte, keys: seq<Byte>)
    returns (idx: Byte, i: nat, sent: seq<Byte>)
    requires HasTerminator(keys)
    requires Layout(buffer[..], buffer[..], [], maxLen as int)
    modifies buffer
    ensures i == TerminatorIndex(keys)
    ensures idx as int == |ScannedLine(keys, maxLen as int)|
    ensures Layout(buffer[..], old(buffer[..]), ScannedLine(keys, maxLen as int), maxLen as int)
    ensures sent == Echo(keys[..i], maxLen as int)
  {
    var m := maxLen as int;
    ghost var t := TerminatorIndex(keys);
    idx, i, sent := 0, 0, [];
    while !IsTerminator(keys[i])
      invariant i <= t
      invariant idx as int == |EditedLine(keys[..i], m)|
      invariant Layout(buffer[..], old(buffer[..]), EditedLine(keys[..i], m), m)
      invariant sent == Echo(keys[..i], m)
      decreases t - i
    {
      assert i < t;
      EditStep(keys, i, m);
      var echo;
      idx, echo := EditInBuffer(buffer, idx, maxLen, keys[i], EditedLine(keys[..i], m), old(buffer[..]));
      sent := sent + echo;
      i := i + 1;
    }
  }

  /**
    `serial_scan(buffer, max_len)` over the received bytes `keys`: zeroes the
    first `max_len` bytes, edits until the first CR or LF, writes the
    terminating NUL at the write index and returns the index plus one,
    truncated to `uint8_t`.  `consumed` is the number of bytes read.
  */
  method SerialScan(buffer: array<Byte>, maxLen: Byte, keys: seq<Byte>)
    returns (r: Byte, consumed: nat, sent: seq<Byte>)
    requires maxLen as int < buffer.Length
    requires HasTerminator(keys)
    modifies buffer
    ensures consumed == TerminatorIndex(keys) + 1
    ensures r as int == (|ScannedLine(keys, maxLen as int)| + 1) % 256
    ensures maxLen < 255 ==> 1 <= r as int <= maxLen as int + 1
    ensures ScanLayout(buffer[..], old(buffer[..]), ScannedLine(keys, maxLen as int), maxLen as int)
    ensures sent == Echo(keys[..TerminatorIndex(keys)], maxLen as int) + Newline
  {
    Bzero(buffer, maxLen as int);
    ghost var zeroed := buffer[..];
    assert Layout(zeroed, zeroed, [], maxLen as int);
    var idx, i;
    idx, i, sent := EditUntilTerminator(buffer, maxLen, keys);
    ghost var edited := buffer[..];
    buffer[idx] := Nul;
    TerminatedLayout(old(buffer[..]), zeroed, edited, buffer[..], ScannedLine(keys, maxLen as int), maxLen as int);
    sent := sent + Newline;
    // `input_idx + 1` in uint8_t arithmetic
    r := if idx == 255 then 0 else idx + 1;
    WrapByte(idx as int + 1);
    consumed := i + 1;
  }

  /**
    The buffer `serial_scan` leaves, compared with the `original`: the line,
    NUL from the end of the line through `m - 1` and at the end of the line,
    the byte at `m` NUL or original, and every byte after `m` original.
  */
  ghost predicate ScanLayout(buf: seq<Byte>, original: seq<Byte>, line: seq<Byte>, m: nat) {
    && |line| <= m < |buf| == |original|
    && buf[..|line|] == line
    && (forall j :: |line| <= j < m ==> buf[j] == Nul)
    && buf[|line|] == Nul
    && (buf[m] == Nul || buf[m] == original[m])
    && (forall j :: m < j < |buf| ==> buf[j] == original[j])
  }

  /** Zeroing, editing, then writing the terminating NUL gives that layout. */
  lemma TerminatedLayout(original: seq<Byte>, zeroed: seq<Byte>, edited: seq<Byte>, after: seq<Byte>,
                         line: seq<Byte>, m: nat)
    requires |zeroed| == |original| && m < |zeroed|
    requires forall j :: 0 <= j < m ==> zeroed[j] == Nul
    requires forall j :: m <= j < |zeroed| ==> zeroed[j] == original[j]
    requires Layout(edited, zeroed, line, m)
    requires after == edited[|line| := Nul]
    ensures ScanLayout(after, original, line, m)
  {
    assert after[..|line|] == edited[..|line|];
  }

  /** Truncating a count of 1..256 to `uint8_t` wraps only 256, to 0. */
  lemma WrapByte(n: int)
    requires 1 <= n <= 256
    ensures n % 256 == if n == 256 then 0 else n
  {
  }

  /**
    With `max_len` 255 a full line makes the returned `uint8_t` count wrap to
    0: 255 stored characters followed by CR.
  */
  lemma FullLineWrapsResult(keys: seq<Byte>)
    requires |keys| == 256 && keys[255] == CarriageReturn
    requires forall k :: 0 <= k < 255 ==> !IsTerminator(keys[k]) && keys[k] != Backspace
    ensures HasTerminator(keys) && TerminatorIndex(keys) == 255
    ensures (|ScannedLine(keys, 255)| + 1) % 256 == 0
  {
    assert IsTerminator(keys[255]);
    PlainTypingTruncates(keys[..255], 255);
  }
}
