/** __vsnprintf and __vprintf. */
module Vsnprintf {
  import opened Format
  import opened Print
  import opened Serial

  /** A conversion with its operand: false when the character is not one. */
  method AddConversion(buf: Buffer, len: nat, c: char, x: Input, next: nat, size: nat, ghost text: string, ghost was: seq<char>)
    returns (ok: bool, words: nat)
    requires buf.Shows(text, len, was)
    modifies buf, buf.data
    ensures ok <==> Convert(c, x, next, size).Some?
    ensures ok ==> words == Convert(c, x, next, size).value.1 && buf.Shows(text + Convert(c, x, next, size).value.0, len, was)
    ensures !ok ==> buf.Shows(text, len, was)
  {
    ok, words := true, 1;
    if c == 's' {
      buf.AddStr(len, x.strings(x.args(next)), text, was);
    } else if c == 'c' {
      buf.Add(len, (x.args(next) % 0x100) as char, text, was);
    } else if c == 'b' {
      buf.AddBin(len, x.args(next), 32, text, was);
    } else if c == 'B' {
      buf.AddBin(len, Arg64(x.args, next), 64, text, was);
      words := 2;
    } else if c == 'd' || c == 'i' {
      buf.AddIdec(len, SignedArg(x.args, next, size), text, was);
      words := Words(size);
    } else if c == 'u' {
      buf.AddUdec(len, UnsignedArg(x.args, next, size), text, was);
      words := Words(size);
    } else if c == 'x' {
      var n := buf.AddHex(len, UnsignedArg(x.args, next, size), 0, text, was);
      words := Words(size);
    } else if c == 'D' {
      buf.AddIdec(len, Signed(Arg64(x.args, next), TWO_64), text, was);
      words := 2;
    } else if c == 'X' {
      var n := buf.AddHex(len, Arg64(x.args, next), 0, text, was);
      words := 2;
    } else if c == 'p' {
      buf.AddStr(len, "0x", text, was);
      var n := buf.AddHex(len, x.args(next), 0, text + "0x", was);
      assert (text + "0x") + Hex(x.args(next), 0) == text + ("0x" + Hex(x.args(next), 0));
    } else if c == '%' {
      buf.Add(len, c, text, was);
      words := 0;
    } else {
      ok, words := false, 0;
    }
  }

  datatype Outcome = Done(count: nat) | Panic(c: char)

  /** Positions for characters besides the NUL. */
  function Capacity(len: nat): nat { if len > 0 then len - 1 else 0 }

  /** One turn of the loop: what the character adds to the text, and the local state after it. */
  method OneChar(buf: Buffer, len: nat, c: char, x: Input, next: nat, m: Mode, ghost text: string, ghost was: seq<char>)
    returns (ok: bool, words: nat, m': Mode, ghost shown: string)
    requires buf.Shows(text, len, was)
    modifies buf, buf.data
    ensures ok ==> Act(c, x, next, m) == Emit(shown, next + words, m') && buf.Shows(text + shown, len, was)
    ensures !ok ==> Act(c, x, next, m) == Unsupported(c)
  {
    ok, words, m', shown := true, 0, m, "";
    assert text + "" == text;
    if m.interp {
      if c == 'l' {
        m' := if m.lng then m.(size := 8) else m.(lng := true);
      } else if c == 'h' {
        m' := m.(size := m.size / 2);
      } else if IsDigit(c) {
      } else {
        ok, words := AddConversion(buf, len, c, x, next, m.size, text, was);
        if ok { shown := Convert(c, x, next, m.size).value.0; }
        m' := Mode(false, false, m.size);
      }
    } else if c == '%' {
      m' := Mode(true, m.lng, 4);
    } else {
      buf.Add(len, c, text, was);
      shown := [c];
    }
  }

  lemma CutLength(text: string, len: nat)
    ensures Min(|text|, Capacity(len)) == if |text| + 1 < len then |text| else if len > 0 then len - 1 else 0
  {
  }

  /** __vsnprintf refines the rendering: the buffer gets its first len-1 characters and a NUL, later
      characters of the buffer are untouched, and the count returned includes the NUL. With len 0 it
      still stores the NUL, so the caller's buffer needs room for one character. */
  method Vsnprintf(buffer: array<char>, len: nat, format: string, x: Input) returns (r: Outcome)
    requires len <= buffer.Length && buffer.Length >= 1
    modifies buffer
    ensures match Render(format, x, 0, START)
      case Panics(text, c) => r == Panic(c)
      case Rendered(text, _, _) =>
        var n := if |text| + 1 < len then |text| else if len > 0 then len - 1 else 0;
        r == Done(n + 1) && buffer[..] == text[..n] + ['\0'] + old(buffer[..])[n + 1..]
  {
    var buf := new Buffer(buffer);
    var m := Mode(false, false, 4);
    var next: nat := 0;
    var n := Capacity(len);
    ghost var was := buffer[..];
    ghost var text := "";
    assert Trunc("", n) + was[0..] == was;
    var i := 0;
    assert format[0..] == format;
    AfterNothing(Render(format, x, 0, START));
    while i < |format|
      invariant 0 <= i <= |format| && buf.data == buffer && buf.Shows(text, n, was)
      invariant Render(format, x, 0, START) == After(text, Render(format[i..], x, next, m))
    {
      var c := format[i];
      ghost var rest := format[i..];
      assert rest[0] == c && rest[1..] == format[i + 1..];
      ghost var shown;
      var ok, words, m';
      ok, words, m', shown := OneChar(buf, n, c, x, next, m, text, was);
      if !ok { return Panic(c); }
      OneMore(text, shown, rest, x, next, m, next + words, m');
      text := text + shown;
      i, next, m := i + 1, next + words, m';
    }
    assert format[|format|..] == "";
    assert text + "" == text;
    r := Terminate(buf, text, len, was);
  }

  /** The NUL is stored whether or not the caller left room for it. */
  method Terminate(buf: Buffer, ghost text: string, len: nat, ghost was: seq<char>) returns (r: Outcome)
    requires buf.Shows(text, Capacity(len), was) && buf.sz < buf.data.Length
    modifies buf, buf.data
    ensures var n := if |text| + 1 < len then |text| else if len > 0 then len - 1 else 0;
      r == Done(n + 1) && buf.data[..] == text[..n] + ['\0'] + was[n + 1..]
  {
    ghost var before := buf.data[..];
    CutLength(text, len);
    buf.data[buf.sz] := '\0';
    assert buf.data[..] == before[buf.sz := '\0'];
    buf.sz := buf.sz + 1;
    return Done(buf.sz);
  }

  lemma AfterNothing(r: Rendering)
    ensures After("", r) == r
  {
    assert "" + r.text == r.text;
  }

  /** Rendering one more character of the format. */
  lemma OneMore(text: string, shown: string, rest: string, x: Input, i: nat, m: Mode, j: nat, m': Mode)
    requires rest != "" && Act(rest[0], x, i, m) == Emit(shown, j, m')
    ensures After(text, Render(rest, x, i, m)) == After(text + shown, Render(rest[1..], x, j, m'))
  {
    AfterAfter(text, shown, Render(rest[1..], x, j, m'));
  }

  const PRINT_BUFFER := 1024

  /** What panic() is told when a conversion is not supported. */
  const PANIC_FORMAT := "unsupported format arg '%c'\n"

  function PanicText(c: char): string { "unsupported format arg '" + [(c as int % 0x100) as char] + "'\n" }

  lemma CharDirective(x: Input)
    ensures Render("%c", x, 0, START) == Rendered([(x.args(0) % 0x100) as char], 1, START)
  {
    assert "%c" == ("%" + "") + ['c'];
    DirectiveMeaning("", 'c', x, 0);
  }

  lemma AroundChar(head: string, tail: string, x: Input)
    requires '%' !in head && '%' !in tail
    ensures Render(head + "%c" + tail, x, 0, START) == Rendered(head + [(x.args(0) % 0x100) as char] + tail, 1, START)
  {
    PlainText(head, x, 0, START.size);
    CharDirective(x);
    RenderConcat(head, "%c", x, 0, START);
    PlainText(tail, x, 1, START.size);
    RenderConcat(head + "%c", tail, x, 0, START);
  }

  lemma PanicRendering(x: Input, c: char)
    requires x.args(0) == c as int
    ensures Render(PANIC_FORMAT, x, 0, START) == Rendered(PanicText(c), 1, START) && |PanicText(c)| < PRINT_BUFFER
  {
    var head, tail := "unsupported format arg '", "'\n";
    AroundChar(head, tail, x);
    assert PANIC_FORMAT == head + "%c" + tail;
  }

  /** uart_write of what __vsnprintf left in the buffer. */
  method EmitBuffer(uart: Uart, printBuffer: array<char>, ghost text: string, count: nat)
    requires printBuffer.Length == PRINT_BUFFER && Fair(uart.ready) && Polite(uart.log)
    requires count == Min(|text|, PRINT_BUFFER - 1) && printBuffer[..count] == text[..count]
    modifies uart
    ensures Sent(uart.log) == old(Sent(uart.log)) + text[..count] && Polite(uart.log)
  {
    assert printBuffer[..][..count] == text[..count];
    var sz := uart.Write(printBuffer[..], count);
  }

  /** A text that fits goes out as it is. */
  method PrintShort(uart: Uart, printBuffer: array<char>, format: string, x: Input, ghost text: string)
    requires printBuffer.Length == PRINT_BUFFER && Fair(uart.ready) && Polite(uart.log)
    requires Render(format, x, 0, START) == Rendered(text, 1, START) && |text| < PRINT_BUFFER
    modifies uart, printBuffer
    ensures Sent(uart.log) == old(Sent(uart.log)) + text && Polite(uart.log)
  {
    var r := Vsnprintf(printBuffer, PRINT_BUFFER, format, x);
    EmitBuffer(uart, printBuffer, text, r.count - 1);
    assert text[..|text|] == text;
  }

  /** panic(): its message, by way of the same buffer, and sixteen NULs; nothing follows. */
  method Panicked(uart: Uart, printBuffer: array<char>, c: char)
    requires printBuffer.Length == PRINT_BUFFER && Fair(uart.ready) && Polite(uart.log)
    modifies uart, printBuffer
    ensures Sent(uart.log) == old(Sent(uart.log)) + PanicText(c) + seq(16, _ => '\0') && Polite(uart.log)
  {
    var x := Input((_: nat) => c as int, _ => "");
    PanicRendering(x, c);
    PrintShort(uart, printBuffer, PANIC_FORMAT, x, PanicText(c));
    uart.Flush();
  }

  /** __vprintf: what goes on the wire is the rendering cut at 1023 characters, once, in order, without
      the NUL, however often the transmitter is busy; an unsupported conversion sends nothing of the
      rendering but the message of the panic it ends in. */
  method Vprintf(uart: Uart, printBuffer: array<char>, format: string, x: Input) returns (r: Outcome)
    requires printBuffer.Length == 1024 && Fair(uart.ready) && Polite(uart.log)
    modifies uart, printBuffer
    ensures Polite(uart.log)
    ensures match Render(format, x, 0, START)
      case Panics(text, c) =>
        r == Panic(c) && Sent(uart.log) == old(Sent(uart.log)) + PanicText(c) + seq(16, _ => '\0')
      case Rendered(text, _, _) =>
        var n := if |text| < 1023 then |text| else 1023;
        r == Done(n + 1) && Sent(uart.log) == old(Sent(uart.log)) + text[..n]
  {
    r := Vsnprintf(printBuffer, PRINT_BUFFER, format, x);
    match r
    case Done(count) => EmitBuffer(uart, printBuffer, Render(format, x, 0, START).text, count - 1);
    case Panic(c) => Panicked(uart, printBuffer, c);
  }
}
