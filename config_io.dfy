/**
 * The configuration file reader of config_io.c: a reading buffer with one
 * character of readahead that turns "\r\n" into '\n' and counts lines, the
 * escape sequences of identifiers and values, and the two state machines that
 * read an identifier (a section or a key) and a value.
 *
 * The file is a sequence of characters `data`; the end of the sequence is EOF.
 * Each state machine is specified by a step function on a configuration
 * (state, return code, text read so far, position), and the C loop is a
 * method proved to run those steps to the end state.
 */
module ConfigIO {
  import opened Wrappers
  import opened StrLib
  import ConfigParser

  /** What read_buf_next / read_buf_peek return: a character or EOF. */
  datatype Input = EOF | Char(c: char)

  const BELL: char := 7 as char
  const BACKSPACE: char := 8 as char
  const VTAB: char := 11 as char
  const FORMFEED: char := 12 as char

  /** The number of line feeds in s. */
  function Newlines(s: seq<char>): nat
    decreases |s|
  {
    if |s| == 0 then 0 else Newlines(s[..|s| - 1]) + (if s[|s| - 1] == '\n' then 1 else 0)
  }

  /**
   * read_buf_next at position i: the character read, with "\r\n" read as one
   * '\n', and the position after it. At the end of the data: EOF, nothing consumed.
   */
  function NextChar(data: seq<char>, i: nat): (res: (Input, nat))
    requires i <= |data|
    ensures res.0 == EOF <==> i == |data|
    ensures res.0 == EOF ==> res.1 == i
    ensures res.0 != EOF ==> i < res.1 <= |data| && data[res.1 - 1] == (if res.0.c == '\n' then '\n' else res.0.c)
    ensures res.0 != EOF && data[i] != '\r' ==> res == (Char(data[i]), i + 1)
    ensures res.0 == Char('\n') <==> i < |data| && (data[i] == '\n' || (data[i] == '\r' && i + 1 < |data| && data[i + 1] == '\n'))
  {
    if i == |data| then (EOF, i)
    else if data[i] == '\r' && i + 1 < |data| && data[i + 1] == '\n' then (Char('\n'), i + 2)
    else (Char(data[i]), i + 1)
  }

  /** read_buf_peek: the next raw character, not consumed. */
  function Peek(data: seq<char>, i: nat): (c: Input)
    requires i <= |data|
    ensures c == EOF <==> i == |data|
    ensures c != EOF ==> c.c == data[i]
  {
    if i == |data| then EOF else Char(data[i])
  }

  /** The reading buffer and the position structure it updates. */
  class ReadBuf {
    const data: seq<char>
    /** Index of the readahead character (rb->next). */
    var pos: nat
    var line: nat
    var col: nat

    /** line counts the line feeds read so far. */
    ghost predicate Valid()
      reads this
    {
      pos <= |data| && line == 1 + Newlines(data[..pos])
    }

    /** position_init then read_buf_init. */
    constructor (data: seq<char>)
      ensures Valid() && this.data == data
      ensures pos == 0 && line == 1 && col == 1
    {
      this.data := data;
      pos := 0;
      line := 1;
      col := 1;
    }

    /** read_buf_peek. */
    function PeekNext(): (c: Input)
      reads this
      requires pos <= |data|
      ensures c == Peek(data, pos)
    {
      if pos == |data| then EOF else Char(data[pos])
    }

    /**
     * read_buf_next: the character read; a line feed starts a new line at
     * column 1, any other character moves one column right.
     */
    method Next() returns (c: Input)
      requires Valid()
      modifies this
      ensures Valid()
      ensures (c, pos) == NextChar(data, old(pos))
      ensures c == EOF ==> line == old(line) && col == old(col)
      ensures c == Char('\n') ==> line == old(line) + 1 && col == 1
      ensures c != EOF && c != Char('\n') ==> line == old(line) && col == old(col) + 1
    {
      if pos == |data| {
        return EOF;
      }
      var ch := data[pos];
      pos := pos + 1;
      assert data[..pos][..pos - 1] == data[..pos - 1];
      if ch == '\r' && pos < |data| && data[pos] == '\n' {
        pos := pos + 1;
        assert data[..pos][..pos - 1] == data[..pos - 1];
        ch := '\n';
      }
      if ch == '\n' {
        line := line + 1;
        col := 1;
      } else {
        col := col + 1;
      }
      c := Char(ch);
    }
  }

  // -------------------------------------------------------------------------
  // Escape sequences

  predicate IsDigit(c: char) { '0' <= c <= '9' }
  predicate IsHexDigit(c: char) { IsDigit(c) || 'a' <= c <= 'f' || 'A' <= c <= 'F' }
  predicate IsOctDigit(c: char) { '0' <= c <= '7' }

  /** hextoint. */
  function HexToInt(c: char): (v: nat)
    requires IsHexDigit(c)
    ensures v < 16
  {
    if IsDigit(c) then c as int - '0' as int
    else if 'a' <= c <= 'f' then c as int - 'a' as int + 10
    else c as int - 'A' as int + 10
  }

  /** octtoint. */
  function OctToInt(c: char): (v: nat)
    requires IsOctDigit(c)
    ensures v < 8
  {
    c as int - '0' as int
  }

  /** A character read as `(char) v`: the low byte of v. */
  function ByteChar(v: nat): char {
    (v % 256) as char
  }

  /** The characters char_escape writes with a backslash, each with the letter that follows it. */
  function EscapeLetter(c: char): (e: Option<char>)
  {
    if c == '\\' || c == '"' || c == '#' || c == ';' || c == '[' || c == ']' || c == '=' then Some(c)
    else if c == '\n' then Some('n')
    else if c == '\r' then Some('r')
    else if c == BACKSPACE then Some('b')
    else if c == '\t' then Some('t')
    else if c == FORMFEED then Some('f')
    else if c == BELL then Some('a')
    else if c == VTAB then Some('v')
    else None
  }

  /**
   * char_unescape: the text that the escape `\c` stands for, reading from
   * position i for the digits of `\x` and octal escapes, and the position
   * after them. An unknown escape, and `\x` without a hex digit, keep the
   * backslash.
   */
  function Unescape(data: seq<char>, i: nat, c: char): (res: (seq<char>, nat))
    requires i <= |data|
    ensures i <= res.1 <= |data| && 1 <= |res.0| <= 2
    ensures res.1 > i ==> c == 'x' || IsOctDigit(c)
  {
    if c == '\\' || c == '"' || c == '\'' || c == '?' then ([c], i)
    else if c == 'n' then (['\n'], i)
    else if c == 'r' then (['\r'], i)
    else if c == 'b' then ([BACKSPACE], i)
    else if c == 't' then (['\t'], i)
    else if c == 'f' then ([FORMFEED], i)
    else if c == 'a' then ([BELL], i)
    else if c == 'v' then ([VTAB], i)
    else if c == 'x' then
      if i < |data| && IsHexDigit(data[i]) then
        if i + 1 < |data| && IsHexDigit(data[i + 1]) then
          ([ByteChar(HexToInt(data[i]) * 16 + HexToInt(data[i + 1]))], i + 2)
        else ([ByteChar(HexToInt(data[i]))], i + 1)
      else (['\\', 'x'], i)
    else if c == '#' || c == ';' || c == '[' || c == ']' || c == '=' then ([c], i)
    else if IsOctDigit(c) then
      if i < |data| && IsOctDigit(data[i]) then
        if i + 1 < |data| && IsOctDigit(data[i + 1]) then
          ([ByteChar((OctToInt(c) * 8 + OctToInt(data[i])) * 8 + OctToInt(data[i + 1]))], i + 2)
        else ([ByteChar(OctToInt(c) * 8 + OctToInt(data[i]))], i + 1)
      else ([ByteChar(OctToInt(c))], i)
    else (['\\', c], i)
  }

  /** char_escape: what is written for c. */
  function Escape(c: char): (s: seq<char>)
  {
    match EscapeLetter(c)
    case Some(e) => ['\\', e]
    case None => [c]
  }

  /** char_escape on every character of s. */
  function EscapeAll(s: seq<char>): (e: seq<char>)
    decreases |s|
  {
    if |s| == 0 then [] else EscapeAll(s[..|s| - 1]) + Escape(s[|s| - 1])
  }

  /**
   * An escaped character reads back as itself: either it is written as is and
   * is none of the characters the readers treat specially, or it is written
   * as a backslash and a letter that char_unescape maps back to it without
   * reading further.
   */
  lemma EscapeRoundTrip(c: char, data: seq<char>, i: nat)
    requires i <= |data|
    ensures |Escape(c)| == 1 ==> Escape(c) == [c] && c !in {'\\', '"', '\n', '\r', '#', ';', '[', ']', '='}
    ensures |Escape(c)| == 2 ==> Escape(c)[0] == '\\' && Escape(c)[1] != '\n' && Escape(c)[1] != '\r'
                                 && Unescape(data, i, Escape(c)[1]) == ([c], i)
  {
  }

  /** char_unescape, pushing into sb and consuming the digits it reads from rb. */
  method CharUnescape(sb: StrBuf, c: char, rb: ReadBuf)
    requires sb.Valid() && rb.Valid()
    modifies sb, sb.buf, rb
    ensures sb.Valid() && rb.Valid() && sb.mark == old(sb.mark)
    ensures sb.buf == old(sb.buf) || fresh(sb.buf)
    ensures (sb.Contents(), rb.pos) == (old(sb.Contents()) + Unescape(rb.data, old(rb.pos), c).0, Unescape(rb.data, old(rb.pos), c).1)
  {
    if c == '\\' || c == '"' || c == '\'' || c == '?' {
      sb.Push(c);
    } else if c == 'n' {
      sb.Push('\n');
    } else if c == 'r' {
      sb.Push('\r');
    } else if c == 'b' {
      sb.Push(BACKSPACE);
    } else if c == 't' {
      sb.Push('\t');
    } else if c == 'f' {
      sb.Push(FORMFEED);
    } else if c == 'a' {
      sb.Push(BELL);
    } else if c == 'v' {
      sb.Push(VTAB);
    } else if c == 'x' {
      UnescapeHex(sb, rb);
    } else if c == '#' || c == ';' || c == '[' || c == ']' || c == '=' {
      sb.Push(c);
    } else if IsOctDigit(c) {
      UnescapeOct(sb, c, rb);
    } else {
      sb.Push('\\');
      sb.Push(c);
      assert sb.Contents() == old(sb.Contents()) + ['\\', c];
    }
  }

  /** The `\x` case of char_unescape: up to two hex digits. */
  method UnescapeHex(sb: StrBuf, rb: ReadBuf)
    requires sb.Valid() && rb.Valid()
    modifies sb, sb.buf, rb
    ensures sb.Valid() && rb.Valid() && sb.mark == old(sb.mark)
    ensures sb.buf == old(sb.buf) || fresh(sb.buf)
    ensures (sb.Contents(), rb.pos) == (old(sb.Contents()) + Unescape(rb.data, old(rb.pos), 'x').0, Unescape(rb.data, old(rb.pos), 'x').1)
  {
    var p := rb.PeekNext();
    if p.Char? && IsHexDigit(p.c) {
      var v := HexToInt(p.c);
      var _ := rb.Next();
      p := rb.PeekNext();
      if p.Char? && IsHexDigit(p.c) {
        v := v * 16 + HexToInt(p.c);
        var _ := rb.Next();
      }
      sb.Push(ByteChar(v));
    } else {
      sb.Push('\\');
      sb.Push('x');
      assert sb.Contents() == old(sb.Contents()) + ['\\', 'x'];
    }
  }

  /** The octal case of char_unescape: the digit c and up to two more. */
  method UnescapeOct(sb: StrBuf, c: char, rb: ReadBuf)
    requires sb.Valid() && rb.Valid() && IsOctDigit(c)
    modifies sb, sb.buf, rb
    ensures sb.Valid() && rb.Valid() && sb.mark == old(sb.mark)
    ensures sb.buf == old(sb.buf) || fresh(sb.buf)
    ensures (sb.Contents(), rb.pos) == (old(sb.Contents()) + Unescape(rb.data, old(rb.pos), c).0, Unescape(rb.data, old(rb.pos), c).1)
  {
    ghost var i := rb.pos;
    var v := OctToInt(c);
    var p := rb.PeekNext();
    if p.Char? && IsOctDigit(p.c) {
      var _ := rb.Next();
      v := v * 8 + OctToInt(p.c);
      p := rb.PeekNext();
      if p.Char? && IsOctDigit(p.c) {
        var _ := rb.Next();
        v := v * 8 + OctToInt(p.c);
        assert Unescape(rb.data, i, c) == ([ByteChar(v)], i + 2);
      } else {
        assert Unescape(rb.data, i, c) == ([ByteChar(v)], i + 1);
      }
    } else {
      assert Unescape(rb.data, i, c) == ([ByteChar(v)], i);
    }
    sb.Push(ByteChar(v));
  }

  /** char_escape, appending to sb. */
  method CharEscape(sb: StrBuf, c: char)
    requires sb.Valid()
    modifies sb, sb.buf
    ensures sb.Valid() && sb.mark == old(sb.mark) && (sb.buf == old(sb.buf) || fresh(sb.buf))
    ensures sb.Contents() == old(sb.Contents()) + Escape(c)
  {
    if c == '\\' || c == '"' {
      sb.Append(['\\', c]);
    } else if c == '\n' {
      sb.Append(['\\', 'n']);
    } else if c == '\r' {
      sb.Append(['\\', 'r']);
    } else if c == BACKSPACE {
      sb.Append(['\\', 'b']);
    } else if c == '\t' {
      sb.Append(['\\', 't']);
    } else if c == FORMFEED {
      sb.Append(['\\', 'f']);
    } else if c == BELL {
      sb.Append(['\\', 'a']);
    } else if c == VTAB {
      sb.Append(['\\', 'v']);
    } else if c == '#' || c == ';' || c == '[' || c == ']' || c == '=' {
      sb.Append(['\\', c]);
    } else {
      sb.Push(c);
    }
  }

  // -------------------------------------------------------------------------
  // nparser_get_next_idt

  datatype IdtState =
    | IdtStart          // start reading
    | BeginSection      // after a [
    | ReadSection       // reading a section name
    | ReadSectionEsc    // escaped char in a section name
    | AfterSection      // after a ]
    | ReadName          // reading a key name
    | ReadNameEsc       // escaped char in a key name
    | IdtComment        // the line is a comment
    | AfterComment      // comment after a section declaration
    | IdtSkip           // skip to the end of the line
    | IdtEnd            // stop reading

  /** The identifier reader between two steps: state, return code, name read so far, position. */
  datatype IdtConf = IdtConf(st: IdtState, r: int, acc: seq<char>, pos: nat)

  /** One turn of the loop of nparser_get_next_idt: read a character and act on it. */
  function IdtStep(data: seq<char>, k: IdtConf): (k': IdtConf)
    requires k.pos <= |data| && k.st != IdtEnd
    ensures k.pos <= k'.pos <= |data|
    ensures k'.pos == k.pos ==> k.pos == |data| && k'.st == IdtEnd
  {
    var (c, p) := NextChar(data, k.pos);
    var eof := c == EOF;
    var eol := c == Char('\n');
    var comment := c == Char('#') || c == Char(';');
    match k.st
    case IdtStart =>
      if eof then k.(st := IdtEnd, pos := p)
      else if c.c == '[' then k.(st := BeginSection, pos := p)
      else if comment then k.(st := IdtComment, pos := p)
      else if c.c == ']' || c.c == '=' then k.(st := IdtSkip, r := -1, pos := p)
      else if !IsBlank(c.c) && !eol then k.(st := ReadName, acc := k.acc + [c.c], pos := p)
      else k.(pos := p)
    case BeginSection =>
      if eol || eof then k.(st := IdtEnd, r := -1, pos := p)
      else if comment || c.c == ']' then k.(st := IdtSkip, r := -1, pos := p)
      else if !IsBlank(c.c) then k.(st := ReadSection, acc := k.acc + [c.c], pos := p)
      else k.(pos := p)
    case ReadSection =>
      if eol || eof then k.(st := IdtEnd, r := -1, pos := p)
      else if c.c == '\\' then k.(st := ReadSectionEsc, pos := p)
      else if comment then k.(st := IdtSkip, r := -1, pos := p)
      else if c.c == ']' then k.(st := AfterSection, r := 1, pos := p)
      else k.(acc := k.acc + [c.c], pos := p)
    case ReadSectionEsc =>
      if eol || eof then k.(st := IdtEnd, r := -1, pos := p)
      else
        var u := Unescape(data, p, c.c);
        k.(st := ReadSection, acc := k.acc + u.0, pos := u.1)
    case AfterSection =>
      if eol || eof then k.(st := IdtEnd, pos := p)
      else if comment then k.(st := AfterComment, pos := p)
      else if !IsBlank(c.c) then k.(st := IdtSkip, pos := p)
      else k.(pos := p)
    case ReadName =>
      if eol || eof then k.(st := IdtEnd, r := -1, pos := p)
      else if c.c == '\\' then k.(st := ReadNameEsc, pos := p)
      else if comment then k.(st := IdtSkip, r := -1, pos := p)
      else if c.c == '=' then k.(st := IdtEnd, r := 2, pos := p)
      else k.(acc := k.acc + [c.c], pos := p)
    case ReadNameEsc =>
      if eol || eof then k.(st := IdtEnd, r := -1, pos := p)
      else
        var u := Unescape(data, p, c.c);
        k.(st := ReadName, acc := k.acc + u.0, pos := u.1)
    case IdtComment =>
      if eol then k.(st := IdtStart, pos := p)
      else if eof then k.(st := IdtEnd, pos := p)
      else k.(pos := p)
    case AfterComment =>
      if eol || eof then k.(st := IdtEnd, pos := p) else k.(pos := p)
    case IdtSkip =>
      if eol || eof then k.(st := IdtEnd, pos := p) else k.(pos := p)
  }

  /** The loop of nparser_get_next_idt: steps until the end state. */
  function IdtRun(data: seq<char>, k: IdtConf): (k': IdtConf)
    requires k.pos <= |data|
    ensures k'.st == IdtEnd && k.pos <= k'.pos <= |data|
    decreases |data| - k.pos, if k.st == IdtEnd then 0 else 1
  {
    if k.st == IdtEnd then k else IdtRun(data, IdtStep(data, k))
  }

  /**
   * nparser_get_next_idt from position i: the return code (-1 error, 0 end
   * of file, 1 section, 2 key), the identifier, right-stripped for a section
   * or a key, and the position after it.
   */
  function NextIdtSpec(data: seq<char>, i: nat): (res: (int, seq<char>, nat))
    requires i <= |data|
  {
    var k := IdtRun(data, IdtConf(IdtStart, 0, [], i));
    (k.r, if k.r == 1 || k.r == 2 then RStripped(k.acc, 0) else k.acc, k.pos)
  }

  /** One turn of the loop of nparser_get_next_idt on the reading buffer and the name buffer. */
  method IdtTurn(rb: ReadBuf, sb: StrBuf, st: IdtState, r: int) returns (st': IdtState, r': int)
    requires rb.Valid() && sb.Valid() && st != IdtEnd
    modifies rb, sb, sb.buf
    ensures rb.Valid() && sb.Valid() && sb.mark == old(sb.mark)
    ensures sb.buf == old(sb.buf) || fresh(sb.buf)
    ensures IdtConf(st', r', sb.Contents(), rb.pos) == IdtStep(rb.data, IdtConf(st, r, old(sb.Contents()), old(rb.pos)))
  {
    var c := rb.Next();
    var eof := c == EOF;
    var eol := c == Char('\n');
    var comment := c == Char('#') || c == Char(';');
    st', r' := st, r;
    match st
    case IdtStart =>
      if eof {
        st' := IdtEnd;
      } else if c.c == '[' {
        st' := BeginSection;
      } else if comment {
        st' := IdtComment;
      } else if c.c == ']' || c.c == '=' {
        st', r' := IdtSkip, -1;
      } else if !IsBlank(c.c) && !eol {
        sb.Push(c.c);
        st' := ReadName;
      }
    case BeginSection =>
      if eol || eof {
        st', r' := IdtEnd, -1;
      } else if comment || c.c == ']' {
        st', r' := IdtSkip, -1;
      } else if !IsBlank(c.c) {
        sb.Push(c.c);
        st' := ReadSection;
      }
    case ReadSection =>
      if eol || eof {
        st', r' := IdtEnd, -1;
      } else if c.c == '\\' {
        st' := ReadSectionEsc;
      } else if comment {
        st', r' := IdtSkip, -1;
      } else if c.c == ']' {
        st', r' := AfterSection, 1;
      } else {
        sb.Push(c.c);
      }
    case ReadSectionEsc =>
      if eol || eof {
        st', r' := IdtEnd, -1;
      } else {
        CharUnescape(sb, c.c, rb);
        st' := ReadSection;
      }
    case AfterSection =>
      if eol || eof {
        st' := IdtEnd;
      } else if comment {
        st' := AfterComment;
      } else if !IsBlank(c.c) {
        st' := IdtSkip;
      }
    case ReadName =>
      if eol || eof {
        st', r' := IdtEnd, -1;
      } else if c.c == '\\' {
        st' := ReadNameEsc;
      } else if comment {
        st', r' := IdtSkip, -1;
      } else if c.c == '=' {
        st', r' := IdtEnd, 2;
      } else {
        sb.Push(c.c);
      }
    case ReadNameEsc =>
      if eol || eof {
        st', r' := IdtEnd, -1;
      } else {
        CharUnescape(sb, c.c, rb);
        st' := ReadName;
      }
    case IdtComment =>
      if eol {
        st' := IdtStart;
      } else if eof {
        st' := IdtEnd;
      }
    case AfterComment =>
      if eol || eof {
        st' := IdtEnd;
      }
    case IdtSkip =>
      if eol || eof {
        st' := IdtEnd;
      }
  }

  /** nparser_get_next_idt: reads one identifier into sb. */
  method NextIdt(rb: ReadBuf, sb: StrBuf) returns (r: int)
    requires rb.Valid() && sb.Valid()
    modifies rb, sb, sb.buf
    ensures rb.Valid() && sb.Valid() && sb.mark == 0
    ensures sb.buf == old(sb.buf) || fresh(sb.buf)
    ensures (r, sb.Contents(), rb.pos) == NextIdtSpec(rb.data, old(rb.pos))
  {
    sb.Reset();
    var st := IdtStart;
    r := 0;
    while st != IdtEnd
      invariant rb.Valid() && sb.Valid() && sb.mark == 0
      invariant sb.buf == old(sb.buf) || fresh(sb.buf)
      invariant IdtRun(rb.data, IdtConf(st, r, sb.Contents(), rb.pos)) == IdtRun(rb.data, IdtConf(IdtStart, 0, [], old(rb.pos)))
      decreases |rb.data| - rb.pos, if st == IdtEnd then 0 else 1
    {
      st, r := IdtTurn(rb, sb, st, r);
    }
    if r == 1 || r == 2 {
      sb.RStrip();
    }
  }

  /** An identifier as read so far starts with a non-blank character. */
  predicate Named(acc: seq<char>) {
    |acc| > 0 && !IsBlank(acc[0])
  }

  /** What holds of the identifier reader in each state, when it started at position i0. */
  ghost predicate IdtGood(data: seq<char>, i0: nat, k: IdtConf) {
    i0 <= k.pos <= |data|
    && (k.pos == i0 ==> (k.st == IdtStart || k.st == IdtEnd) && k.acc == [] && k.r == 0)
    && match k.st
       case IdtStart => k.r == 0 && k.acc == []
       case IdtComment => k.r == 0 && k.acc == []
       case BeginSection => k.r == 0 && k.acc == []
       case ReadSection => k.r == 0 && Named(k.acc)
       case ReadSectionEsc => k.r == 0 && Named(k.acc)
       case ReadName => k.r == 0 && Named(k.acc)
       case ReadNameEsc => k.r == 0 && Named(k.acc)
       case AfterSection => k.r == 1 && Named(k.acc)
       case AfterComment => k.r == 1 && Named(k.acc)
       case IdtSkip => k.r == -1 || (k.r == 1 && Named(k.acc))
       case IdtEnd =>
         (k.r == -1 || k.r == 0 || k.r == 1 || k.r == 2)
         && (k.r == 0 ==> k.pos == |data| && k.acc == [])
         && (k.r == 1 || k.r == 2 ==> Named(k.acc))
         && (k.r == 1 ==> k.pos == |data| || data[k.pos - 1] == '\n')
         && (k.r == 2 ==> data[k.pos - 1] == '=')
  }

  lemma IdtStepGood(data: seq<char>, i0: nat, k: IdtConf)
    requires IdtGood(data, i0, k) && k.st != IdtEnd
    ensures IdtGood(data, i0, IdtStep(data, k))
  {
  }

  lemma {:induction false} IdtRunGood(data: seq<char>, i0: nat, k: IdtConf)
    requires IdtGood(data, i0, k)
    ensures IdtGood(data, i0, IdtRun(data, k))
    decreases |data| - k.pos, if k.st == IdtEnd then 0 else 1
  {
    if k.st != IdtEnd {
      IdtStepGood(data, i0, k);
      IdtRunGood(data, i0, IdtStep(data, k));
    }
  }

  /**
   * The results of nparser_get_next_idt: -1, 0, 1 or 2; 0 exactly at the end
   * of the file, with nothing read into the name; a section or key name is
   * non-empty and starts and ends with a non-blank character; a section
   * declaration is read to the end of its line, and a key name up to and
   * including its '='.
   */
  lemma NextIdtResult(data: seq<char>, i: nat)
    requires i <= |data|
    ensures var (r, name, j) := NextIdtSpec(data, i);
      (r == -1 || r == 0 || r == 1 || r == 2)
      && (r == 0 ==> j == |data| && name == [])
      && (i == |data| ==> r == 0)
      && (r != 0 ==> i < j)
      && (r == 1 || r == 2 ==> |name| > 0 && !IsBlank(name[0]) && !IsBlank(name[|name| - 1]))
      && (r == 1 ==> j == |data| || data[j - 1] == '\n')
      && (r == 2 ==> data[j - 1] == '=')
      && j <= |data|
  {
    var k0 := IdtConf(IdtStart, 0, [], i);
    IdtRunGood(data, i, k0);
    var k := IdtRun(data, k0);
    if i == |data| {
      assert IdtStep(data, k0) == IdtConf(IdtEnd, 0, [], i);
    }
    if k.r == 1 || k.r == 2 {
      RStrippedSpec(k.acc, 0);
      RStrippedKeepsFirst(k.acc);
    }
  }

  /** rstrip with mark 0 keeps a leading non-blank character. */
  lemma RStrippedKeepsFirst(s: seq<char>)
    requires Named(s)
    ensures Named(RStripped(s, 0))
  {
    RStrippedSpec(s, 0);
  }

  // -------------------------------------------------------------------------
  // nparser_get_next_value

  datatype ValState =
    | ValStart        // start reading, or after a closing quote
    | InQuote         // in a quoted value
    | InQuoteEsc      // escaped char in a quoted value
    | InUnquoted      // in an unquoted value
    | InUnquotedEsc   // escaped char in an unquoted value
    | ValComment      // in a comment
    | ValEnd          // stop reading

  /** The value reader between two steps: state, return code, value so far, rstrip mark, position. */
  datatype ValConf = ValConf(st: ValState, r: int, acc: seq<char>, mark: nat, pos: nat)

  /** One turn of the loop of nparser_get_next_value. */
  function ValStep(data: seq<char>, k: ValConf): (k': ValConf)
    requires k.pos <= |data| && k.st != ValEnd
    ensures k.pos <= k'.pos <= |data|
    ensures k'.pos == k.pos ==> k.pos == |data| && k'.st == ValEnd
  {
    var (c, p) := NextChar(data, k.pos);
    var eof := c == EOF;
    var eol := c == Char('\n');
    var comment := c == Char('#') || c == Char(';');
    match k.st
    case ValStart =>
      if eol || eof then k.(st := ValEnd, pos := p)
      else if comment then k.(st := ValComment, pos := p)
      else if IsBlank(c.c) then k.(pos := p)
      else if c.c == '"' then k.(st := InQuote, pos := p)
      else if c.c == '\\' then k.(st := InUnquotedEsc, pos := p)
      else k.(st := InUnquoted, acc := k.acc + [c.c], pos := p)
    case InQuote =>
      if eof then k.(st := ValEnd, r := -1, pos := p)
      else if eol then k.(acc := k.acc + ['\n'], pos := p)
      else if c.c == '"' then k.(st := ValStart, mark := |k.acc|, pos := p)
      else if c.c == '\\' then k.(st := InQuoteEsc, pos := p)
      else k.(acc := k.acc + [c.c], pos := p)
    case InQuoteEsc =>
      if eof then k.(st := ValEnd, r := -1, pos := p)
      else if eol then k.(st := InQuote, pos := p)
      else
        var u := Unescape(data, p, c.c);
        k.(st := InQuote, acc := k.acc + u.0, pos := u.1)
    case InUnquoted =>
      if eol || eof then k.(st := ValEnd, acc := RStripped(k.acc, k.mark), pos := p)
      else if c.c == '\\' then k.(st := InUnquotedEsc, pos := p)
      else if c.c == '"' then k.(st := InQuote, acc := RStripped(k.acc, k.mark), pos := p)
      else k.(acc := k.acc + [c.c], pos := p)
    case InUnquotedEsc =>
      if eof then k.(st := ValEnd, r := -1, pos := p)
      else if eol then k.(st := ValStart, acc := RStripped(k.acc, k.mark), pos := p)
      else
        var u := Unescape(data, p, c.c);
        k.(st := InUnquoted, acc := k.acc + u.0, pos := u.1)
    case ValComment =>
      if eol || eof then k.(st := ValEnd, pos := p) else k.(pos := p)
  }

  /** The loop of nparser_get_next_value. */
  function ValRun(data: seq<char>, k: ValConf): (k': ValConf)
    requires k.pos <= |data|
    ensures k'.st == ValEnd && k.pos <= k'.pos <= |data|
    decreases |data| - k.pos, if k.st == ValEnd then 0 else 1
  {
    if k.st == ValEnd then k else ValRun(data, ValStep(data, k))
  }

  /** nparser_get_next_value from position i: the return code (-1 or 0), the value, the position after it. */
  function NextValueSpec(data: seq<char>, i: nat): (res: (int, seq<char>, nat))
    requires i <= |data|
  {
    var k := ValRun(data, ValConf(ValStart, 0, [], 0, i));
    (k.r, k.acc, k.pos)
  }

  /** One turn of the loop of nparser_get_next_value. */
  method ValTurn(rb: ReadBuf, sb: StrBuf, st: ValState, r: int) returns (st': ValState, r': int)
    requires rb.Valid() && sb.Valid() && st != ValEnd
    modifies rb, sb, sb.buf
    ensures rb.Valid() && sb.Valid()
    ensures sb.buf == old(sb.buf) || fresh(sb.buf)
    ensures ValConf(st', r', sb.Contents(), sb.mark, rb.pos)
            == ValStep(rb.data, ValConf(st, r, old(sb.Contents()), old(sb.mark), old(rb.pos)))
  {
    var c := rb.Next();
    var eof := c == EOF;
    var eol := c == Char('\n');
    var comment := c == Char('#') || c == Char(';');
    st', r' := st, r;
    match st
    case ValStart =>
      if eol || eof {
        st' := ValEnd;
      } else if comment {
        st' := ValComment;
      } else if IsBlank(c.c) {
      } else if c.c == '"' {
        st' := InQuote;
      } else if c.c == '\\' {
        st' := InUnquotedEsc;
      } else {
        st' := InUnquoted;
        sb.Push(c.c);
      }
    case InQuote =>
      if eof {
        st', r' := ValEnd, -1;
      } else if eol {
        sb.Push('\n');
      } else if c.c == '"' {
        sb.SetMark(sb.len);
        st' := ValStart;
      } else if c.c == '\\' {
        st' := InQuoteEsc;
      } else {
        sb.Push(c.c);
      }
    case InQuoteEsc =>
      if eof {
        st', r' := ValEnd, -1;
      } else {
        if !eol {
          CharUnescape(sb, c.c, rb);
        }
        st' := InQuote;
      }
    case InUnquoted =>
      if eol || eof {
        sb.RStrip();
        st' := ValEnd;
      } else if c.c == '\\' {
        st' := InUnquotedEsc;
      } else if c.c == '"' {
        sb.RStrip();
        st' := InQuote;
      } else {
        sb.Push(c.c);
      }
    case InUnquotedEsc =>
      if eof {
        st', r' := ValEnd, -1;
      } else if eol {
        sb.RStrip();
        st' := ValStart;
      } else {
        CharUnescape(sb, c.c, rb);
        st' := InUnquoted;
      }
    case ValComment =>
      if eol || eof {
        st' := ValEnd;
      }
  }

  /** nparser_get_next_value: reads one value into sb. */
  method NextValue(rb: ReadBuf, sb: StrBuf) returns (r: int)
    requires rb.Valid() && sb.Valid()
    modifies rb, sb, sb.buf
    ensures rb.Valid() && sb.Valid()
    ensures sb.buf == old(sb.buf) || fresh(sb.buf)
    ensures (r, sb.Contents(), rb.pos) == NextValueSpec(rb.data, old(rb.pos))
  {
    sb.Reset();
    var st := ValStart;
    r := 0;
    while st != ValEnd
      invariant rb.Valid() && sb.Valid()
      invariant sb.buf == old(sb.buf) || fresh(sb.buf)
      invariant ValRun(rb.data, ValConf(st, r, sb.Contents(), sb.mark, rb.pos)) == ValRun(rb.data, ValConf(ValStart, 0, [], 0, old(rb.pos)))
      decreases |rb.data| - rb.pos, if st == ValEnd then 0 else 1
    {
      st, r := ValTurn(rb, sb, st, r);
    }
  }

  /** What holds of the value reader: only the end state carries an error, and it stops after a line feed or at the end of the file. */
  ghost predicate ValGood(data: seq<char>, k: ValConf) {
    k.pos <= |data|
    && (k.st != ValEnd ==> k.r == 0)
    && (k.st == ValEnd ==>
          (k.r == 0 || k.r == -1)
          && (k.r == -1 ==> k.pos == |data|)
          && (k.pos == |data| || (k.pos > 0 && data[k.pos - 1] == '\n')))
  }

  lemma ValStepGood(data: seq<char>, k: ValConf)
    requires ValGood(data, k) && k.st != ValEnd
    ensures ValGood(data, ValStep(data, k))
  {
  }

  lemma {:induction false} ValRunGood(data: seq<char>, k: ValConf)
    requires ValGood(data, k)
    ensures ValGood(data, ValRun(data, k))
    decreases |data| - k.pos, if k.st == ValEnd then 0 else 1
  {
    if k.st != ValEnd {
      ValStepGood(data, k);
      ValRunGood(data, ValStep(data, k));
    }
  }

  /**
   * The results of nparser_get_next_value: 0 or -1, -1 only at the end of the
   * file; the reader stops right after a line feed or at the end of the file.
   */
  lemma NextValueResult(data: seq<char>, i: nat)
    requires i <= |data|
    ensures var (r, _, j) := NextValueSpec(data, i);
      (r == 0 || r == -1)
      && (r == -1 ==> j == |data|)
      && (j == |data| || data[j - 1] == '\n')
      && i <= j <= |data|
  {
    ValRunGood(data, ValConf(ValStart, 0, [], 0, i));
  }

  /** Inside quotes, an escaped character is read back as itself. */
  lemma QuotedChar(data: seq<char>, j: nat, j': nat, c: char, acc: seq<char>, mark: nat)
    requires j <= j' <= |data| && data[j..j'] == Escape(c)
    ensures ValRun(data, ValConf(InQuote, 0, acc, mark, j)) == ValRun(data, ValConf(InQuote, 0, acc + [c], mark, j'))
  {
    EscapeAt(data, j, j', c);
    if j' == j + 1 {
      QuotedPlain(data, j, c, acc, mark);
    } else {
      QuotedEscaped(data, j, data[j + 1], c, acc, mark);
    }
  }

  /** The escape of `c` laid out at position j, character by character. */
  lemma EscapeAt(data: seq<char>, j: nat, j': nat, c: char)
    requires j <= j' <= |data| && data[j..j'] == Escape(c)
    ensures j' == j + 1 || j' == j + 2
    ensures j' == j + 1 ==> data[j] == c && c !in {'\\', '"', '\n', '\r', '#', ';', '[', ']', '='}
    ensures j' == j + 2 ==> data[j] == '\\' && data[j + 1] != '\n' && data[j + 1] != '\r'
                            && Unescape(data, j', data[j + 1]) == ([c], j')
  {
    var e := Escape(c);
    EscapeRoundTrip(c, data, j');
    assert data[j] == e[0];
    if |e| == 2 {
      assert data[j + 1] == e[1];
    }
  }

  /** A character written as is inside quotes. */
  lemma QuotedPlain(data: seq<char>, j: nat, c: char, acc: seq<char>, mark: nat)
    requires j < |data| && data[j] == c && c !in {'\\', '"', '\n', '\r', '#', ';', '[', ']', '='}
    ensures ValRun(data, ValConf(InQuote, 0, acc, mark, j)) == ValRun(data, ValConf(InQuote, 0, acc + [c], mark, j + 1))
  {
    assert ValStep(data, ValConf(InQuote, 0, acc, mark, j)) == ValConf(InQuote, 0, acc + [c], mark, j + 1);
  }

  /** A backslash and a letter inside quotes that unescape to `c` without reading further. */
  lemma QuotedEscaped(data: seq<char>, j: nat, letter: char, c: char, acc: seq<char>, mark: nat)
    requires j + 2 <= |data| && data[j] == '\\' && data[j + 1] == letter && letter != '\n' && letter != '\r'
    requires Unescape(data, j + 2, letter) == ([c], j + 2)
    ensures ValRun(data, ValConf(InQuote, 0, acc, mark, j)) == ValRun(data, ValConf(InQuote, 0, acc + [c], mark, j + 2))
  {
    var k0 := ValConf(InQuote, 0, acc, mark, j);
    var k1 := ValConf(InQuoteEsc, 0, acc, mark, j + 1);
    assert ValStep(data, k0) == k1;
    assert ValStep(data, k1) == ValConf(InQuote, 0, acc + [c], mark, j + 2);
  }

  /** Where data[i..j] is the escaped form of s, it splits into the escaped form of all but the last character and the escape of the last. */
  lemma EscapeAllSplit(data: seq<char>, i: nat, j: nat, s: seq<char>) returns (m: nat)
    requires |s| > 0 && i <= j <= |data| && data[i..j] == EscapeAll(s)
    ensures i <= m <= j && data[i..m] == EscapeAll(s[..|s| - 1]) && data[m..j] == Escape(s[|s| - 1])
  {
    m := i + |EscapeAll(s[..|s| - 1])|;
    assert EscapeAll(s) == EscapeAll(s[..|s| - 1]) + Escape(s[|s| - 1]);
    assert data[i..m] == data[i..j][..m - i];
    assert data[m..j] == data[i..j][m - i..];
  }

  /** Appending the last character of s to its other characters gives s. */
  lemma AppendLast(acc: seq<char>, s: seq<char>)
    requires |s| > 0
    ensures acc + s[..|s| - 1] + [s[|s| - 1]] == acc + s
  {
    assert s[..|s| - 1] + [s[|s| - 1]] == s;
  }

  /** Inside quotes, the escaped form of s is read back as s. */
  lemma {:induction false} QuotedRun(data: seq<char>, i: nat, j: nat, s: seq<char>, acc: seq<char>, mark: nat)
    requires i <= j <= |data| && data[i..j] == EscapeAll(s)
    ensures ValRun(data, ValConf(InQuote, 0, acc, mark, i)) == ValRun(data, ValConf(InQuote, 0, acc + s, mark, j))
    decreases |s|
  {
    if |s| > 0 {
      var m := EscapeAllSplit(data, i, j, s);
      QuotedRun(data, i, m, s[..|s| - 1], acc, mark);
      QuotedChar(data, m, j, s[|s| - 1], acc + s[..|s| - 1], mark);
      AppendLast(acc, s);
    } else {
      assert acc + s == acc;
    }
  }

  /** An opening quote at the start of a value. */
  lemma OpenQuote(data: seq<char>, i: nat)
    requires i < |data| && data[i] == '"'
    ensures ValRun(data, ValConf(ValStart, 0, [], 0, i)) == ValRun(data, ValConf(InQuote, 0, [], 0, i + 1))
  {
    assert ValStep(data, ValConf(ValStart, 0, [], 0, i)) == ValConf(InQuote, 0, [], 0, i + 1);
  }

  /** A closing quote and the end of the line end the value; the mark protects it from rstrip. */
  lemma CloseQuote(data: seq<char>, j: nat, s: seq<char>)
    requires j + 2 <= |data| && data[j] == '"' && data[j + 1] == '\n'
    ensures ValRun(data, ValConf(InQuote, 0, s, 0, j)) == ValConf(ValEnd, 0, s, |s|, j + 2)
  {
    var k1 := ValConf(InQuote, 0, s, 0, j);
    var k2 := ValConf(ValStart, 0, s, |s|, j + 1);
    var k3 := ValConf(ValEnd, 0, s, |s|, j + 2);
    assert ValStep(data, k2) == k3;
    assert ValRun(data, k2) == k3;
    assert ValStep(data, k1) == k2;
  }

  /** A quoted value from its opening quote to the end of its line. */
  lemma QuotedFrom(data: seq<char>, i: nat, j: nat, s: seq<char>)
    requires i < j && j + 2 <= |data| && data[i] == '"' && data[i + 1..j] == EscapeAll(s)
    requires data[j] == '"' && data[j + 1] == '\n'
    ensures ValRun(data, ValConf(ValStart, 0, [], 0, i)) == ValConf(ValEnd, 0, s, |s|, j + 2)
  {
    QuotedUpTo(data, i, j, s);
    CloseQuote(data, j, s);
  }

  /** A quoted value from its opening quote up to its closing quote. */
  lemma QuotedUpTo(data: seq<char>, i: nat, j: nat, s: seq<char>)
    requires i < j <= |data| && data[i] == '"' && data[i + 1..j] == EscapeAll(s)
    ensures ValRun(data, ValConf(ValStart, 0, [], 0, i)) == ValRun(data, ValConf(InQuote, 0, s, 0, j))
  {
    OpenQuote(data, i);
    QuotedRun(data, i + 1, j, s, [], 0);
    assert [] + s == s;
  }

  /** The pieces of a quoted line laid out at position i. */
  lemma QuotedLine(data: seq<char>, i: nat, e: seq<char>)
    requires i + |e| + 3 <= |data| && data[i..i + |e| + 3] == ['"'] + e + ['"', '\n']
    ensures data[i] == '"' && data[i + 1..i + 1 + |e|] == e
    ensures data[i + |e| + 1] == '"' && data[i + |e| + 2] == '\n'
  {
    var n := |e|;
    var w := data[i..i + n + 3];
    assert data[i] == w[0] == '"';
    forall m | 0 <= m < n
      ensures data[i + 1..i + 1 + n][m] == e[m]
    {
      assert w[m + 1] == e[m];
    }
    assert data[i + 1..i + 1 + n] == e;
    assert data[i + n + 1] == w[n + 1] == '"' && data[i + n + 2] == w[n + 2] == '\n';
  }

  /**
   * A value written as parser_write writes it, in double quotes with every
   * character escaped by char_escape and followed by a line feed, is read
   * back exactly, blanks included.
   */
  lemma QuotedValueRoundTrip(data: seq<char>, i: nat, s: seq<char>)
    requires var n := |EscapeAll(s)|;
      i + n + 3 <= |data| && data[i..i + n + 3] == ['"'] + EscapeAll(s) + ['"', '\n']
    ensures NextValueSpec(data, i) == (0, s, i + |EscapeAll(s)| + 3)
  {
    var e := EscapeAll(s);
    QuotedLine(data, i, e);
    QuotedFrom(data, i, i + 1 + |e|, s);
  }

  /** A character that ends or changes nothing in an unquoted value. */
  predicate Plain(c: char) {
    c != '\n' && c != '\r' && c != '"' && c != '\\' && c != '#' && c != ';'
  }

  /** A plain character extends an unquoted value. */
  lemma UnquotedChar(data: seq<char>, i: nat, c: char, acc: seq<char>)
    requires i < |data| && data[i] == c && Plain(c)
    ensures ValRun(data, ValConf(InUnquoted, 0, acc, 0, i)) == ValRun(data, ValConf(InUnquoted, 0, acc + [c], 0, i + 1))
  {
    assert ValStep(data, ValConf(InUnquoted, 0, acc, 0, i)) == ValConf(InUnquoted, 0, acc + [c], 0, i + 1);
  }

  /** After the first n characters of a plain unquoted value, they are all read. */
  lemma {:induction false} UnquotedPrefix(data: seq<char>, i: nat, v: seq<char>, n: nat)
    requires 1 <= n <= |v| && i + |v| <= |data| && !IsBlank(v[0])
    requires forall m :: 0 <= m < |v| ==> data[i + m] == v[m] && Plain(v[m])
    ensures ValRun(data, ValConf(ValStart, 0, [], 0, i)) == ValRun(data, ValConf(InUnquoted, 0, v[..n], 0, i + n))
    decreases n
  {
    if n == 1 {
      StartUnquoted(data, i, v[0]);
      assert v[..1] == [v[0]];
    } else {
      UnquotedPrefix(data, i, v, n - 1);
      UnquotedChar(data, i + n - 1, v[n - 1], v[..n - 1]);
      assert v[..n - 1] + [v[n - 1]] == v[..n];
    }
  }

  /** A plain, non-blank character starts an unquoted value. */
  lemma StartUnquoted(data: seq<char>, i: nat, c: char)
    requires i < |data| && data[i] == c && Plain(c) && !IsBlank(c)
    ensures ValRun(data, ValConf(ValStart, 0, [], 0, i)) == ValRun(data, ValConf(InUnquoted, 0, [c], 0, i + 1))
  {
    assert ValStep(data, ValConf(ValStart, 0, [], 0, i)) == ValConf(InUnquoted, 0, [c], 0, i + 1);
  }

  /** The end of the line ends an unquoted value, right-stripped. */
  lemma EndUnquoted(data: seq<char>, j: nat, v: seq<char>)
    requires j < |data| && data[j] == '\n'
    ensures ValRun(data, ValConf(InUnquoted, 0, v, 0, j)) == ValConf(ValEnd, 0, RStripped(v, 0), 0, j + 1)
  {
    var k := ValConf(ValEnd, 0, RStripped(v, 0), 0, j + 1);
    assert ValStep(data, ValConf(InUnquoted, 0, v, 0, j)) == k;
    assert ValRun(data, k) == k;
  }

  /** The characters of a line laid out at position i. */
  lemma LineChars(data: seq<char>, i: nat, v: seq<char>)
    requires i + |v| + 1 <= |data| && data[i..i + |v| + 1] == v + ['\n']
    ensures forall m :: 0 <= m < |v| ==> data[i + m] == v[m]
    ensures data[i + |v|] == '\n'
  {
    var w := data[i..i + |v| + 1];
    assert forall m | 0 <= m < |v| :: data[i + m] == w[m] == v[m];
    assert data[i + |v|] == w[|v|] == '\n';
  }

  /** An unquoted value is read up to the end of its line and right-stripped. */
  lemma UnquotedValue(data: seq<char>, i: nat, v: seq<char>)
    requires i + |v| + 1 <= |data| && data[i..i + |v| + 1] == v + ['\n']
    requires |v| > 0 && !IsBlank(v[0]) && forall m :: 0 <= m < |v| ==> Plain(v[m])
    ensures NextValueSpec(data, i) == (0, RStripped(v, 0), i + |v| + 1)
  {
    LineChars(data, i, v);
    UnquotedValueAt(data, i, v);
  }

  /** UnquotedValue with the line given character by character. */
  lemma UnquotedValueAt(data: seq<char>, i: nat, v: seq<char>)
    requires i + |v| < |data| && data[i + |v|] == '\n'
    requires |v| > 0 && !IsBlank(v[0]) && forall m :: 0 <= m < |v| ==> data[i + m] == v[m] && Plain(v[m])
    ensures NextValueSpec(data, i) == (0, RStripped(v, 0), i + |v| + 1)
  {
    UnquotedPrefix(data, i, v, |v|);
    assert v[..|v|] == v;
    EndUnquoted(data, i + |v|, v);
  }

  lemma {:induction false} InQuoteToEof(data: seq<char>, j: nat, acc: seq<char>, mark: nat)
    requires j <= |data| && forall m :: j <= m < |data| ==> data[m] != '"' && data[m] != '\\'
    ensures ValRun(data, ValConf(InQuote, 0, acc, mark, j)).r == -1
    decreases |data| - j
  {
    var k := ValConf(InQuote, 0, acc, mark, j);
    if j < |data| {
      var k' := ValStep(data, k);
      assert k'.st == InQuote && k'.r == 0 && k'.mark == mark;
      InQuoteToEof(data, k'.pos, k'.acc, mark);
    }
  }

  /** A quote that is never closed is an error, whatever follows it. */
  lemma UnterminatedQuote(data: seq<char>, i: nat)
    requires i < |data| && data[i] == '"'
    requires forall m :: i < m < |data| ==> data[m] != '"' && data[m] != '\\'
    ensures NextValueSpec(data, i).0 == -1
  {
    assert ValStep(data, ValConf(ValStart, 0, [], 0, i)) == ValConf(InQuote, 0, [], 0, i + 1);
    InQuoteToEof(data, i + 1, [], 0);
  }

  // -------------------------------------------------------------------------
  // parser_read

  /** SECTION_DEFAULT: the section of keys read before any section when a default section is allowed. */
  const SectionDefault: seq<char> := "DEFAULT"

  /** What a C function sees of a buffer that may hold a '\0': the characters before the first one. */
  function CStr(s: seq<char>): seq<char>
    decreases |s|
  {
    if |s| == 0 || s[0] == '\0' then [] else [s[0]] + CStr(s[1..])
  }

  /** CStr is the longest prefix without '\0': it stops at the first '\0', or at the end. */
  lemma {:induction false} CStrSpec(s: seq<char>)
    ensures CStr(s) <= s && '\0' !in CStr(s)
    ensures |CStr(s)| < |s| ==> s[|CStr(s)|] == '\0'
    ensures '\0' !in s ==> CStr(s) == s
    decreases |s|
  {
    if |s| > 0 && s[0] != '\0' {
      CStrSpec(s[1..]);
      assert [s[0]] + s[1..] == s;
    }
  }

  /** The reader of parser_read between two identifiers: position, current section (sb_section), options stored. */
  datatype ReadState = ReadState(pos: nat, section: seq<char>, store: ConfigParser.Store)

  /**
   * A key named `name` was read up to position j: its value is read, and the
   * option is stored under the current section unless the value is
   * unterminated, or empty while empty values are not allowed, or no section
   * is current and there is no default section. A key stored while no
   * section is current makes DEFAULT the current section.
   */
  function ReadKey(data: seq<char>, j: nat, section: seq<char>, store: ConfigParser.Store, name: seq<char>,
                   allowDefault: bool, allowEmpty: bool): (s': ReadState)
    requires j <= |data|
    ensures j <= s'.pos <= |data|
  {
    NextValueResult(data, j);
    var (rv, value, j') := NextValueSpec(data, j);
    if rv != 0 || (!allowEmpty && CStr(value) == []) || (!allowDefault && |section| == 0) then
      ReadState(j', section, store)
    else
      // C sees all of DEFAULT (DefaultIsCString)
      if |section| == 0 then
        ReadState(j', SectionDefault, ConfigParser.SetIn(store, SectionDefault, CStr(name), CStr(value), 1 + Newlines(data[..j])))
      else
        ReadState(j', section, ConfigParser.SetIn(store, CStr(section), CStr(name), CStr(value), 1 + Newlines(data[..j])))
  }

  /** One turn of the loop of parser_read, on an identifier that is not the end of the file. */
  function ReadStep(data: seq<char>, s: ReadState, allowDefault: bool, allowEmpty: bool): (s': ReadState)
    requires s.pos <= |data| && NextIdtSpec(data, s.pos).0 != 0
    ensures s.pos < s'.pos <= |data|
  {
    NextIdtResult(data, s.pos);
    var (ri, name, j) := NextIdtSpec(data, s.pos);
    if ri == 1 then ReadState(j, name, s.store)
    else if ri == 2 then ReadKey(data, j, s.section, s.store, name, allowDefault, allowEmpty)
    else s.(pos := j)
  }

  /** The loop of parser_read from state s to the end of the file: the options stored in the end. */
  function ReadFrom(data: seq<char>, s: ReadState, allowDefault: bool, allowEmpty: bool): ConfigParser.Store
    requires s.pos <= |data|
    decreases |data| - s.pos
  {
    if NextIdtSpec(data, s.pos).0 == 0 then s.store
    else ReadFrom(data, ReadStep(data, s, allowDefault, allowEmpty), allowDefault, allowEmpty)
  }

  /**
   * The key case of the loop of parser_read on its buffers: the line of the
   * key, its value read into val, and the option stored in the parser.
   */
  method ReadKeyInto(rb: ReadBuf, val: StrBuf, section: StrBuf, parser: ConfigParser.Parser, name: seq<char>)
    requires rb.Valid() && val.Valid() && section.Valid() && parser.Valid()
    requires val != section && val.buf != section.buf
    modifies rb, val, val.buf, section, section.buf, parser
    ensures rb.Valid() && val.Valid() && section.Valid() && parser.Valid()
    ensures (val.buf == old(val.buf) || fresh(val.buf)) && (section.buf == old(section.buf) || fresh(section.buf))
    ensures val.buf != section.buf
    ensures ReadState(rb.pos, section.Contents(), parser.data)
            == ReadKey(rb.data, old(rb.pos), old(section.Contents()), old(parser.data), name, parser.allowDefault, parser.allowEmpty)
  {
    var line := rb.line;
    ghost var j, sec0, d0 := rb.pos, section.Contents(), parser.data;
    var rv := NextValue(rb, val);
    var value := CStr(val.Contents());
    var skip := rv != 0 || (!parser.allowEmpty && |value| == 0) || (!parser.allowDefault && section.len == 0);
    ReadKeyUnfold(rb.data, j, sec0, d0, name, parser.allowDefault, parser.allowEmpty, rv, val.Contents(), rb.pos, line, skip);
    if skip {
      return;
    }
    StoreKey(section, parser, CStr(name), value, line);
  }

  /** ReadKey in the terms ReadKeyInto works with: the value read, and the line of the key. */
  lemma ReadKeyUnfold(data: seq<char>, j: nat, section: seq<char>, store: ConfigParser.Store, name: seq<char>,
                      allowDefault: bool, allowEmpty: bool, rv: int, value: seq<char>, j': nat, line: int, skip: bool)
    requires j <= |data| && (rv, value, j') == NextValueSpec(data, j) && line == 1 + Newlines(data[..j])
    requires skip == (rv != 0 || (!allowEmpty && |CStr(value)| == 0) || (!allowDefault && |section| == 0))
    ensures skip ==> ReadKey(data, j, section, store, name, allowDefault, allowEmpty) == ReadState(j', section, store)
    ensures !skip ==>
              ReadKey(data, j, section, store, name, allowDefault, allowEmpty)
              == ReadState(j', if |section| == 0 then SectionDefault else section,
                           ConfigParser.SetIn(store, if |section| == 0 then SectionDefault else CStr(section), CStr(name), CStr(value), line))
  {
  }

  /** The end of the key case of parser_read: a key stored while no section is current goes to DEFAULT. */
  method StoreKey(section: StrBuf, parser: ConfigParser.Parser, name: seq<char>, value: seq<char>, line: int)
    requires section.Valid() && parser.Valid() && (parser.allowDefault || section.len > 0)
    modifies section, section.buf, parser
    ensures section.Valid() && parser.Valid()
    ensures section.buf == old(section.buf) || fresh(section.buf)
    ensures section.Contents() == if old(section.len) == 0 then SectionDefault else old(section.Contents())
    ensures parser.data == ConfigParser.SetIn(old(parser.data),
      if old(section.len) == 0 then SectionDefault else CStr(old(section.Contents())), name, value, line)
  {
    if parser.allowDefault && section.len == 0 {
      section.Append(SectionDefault);
      assert section.Contents() == SectionDefault;
      DefaultIsCString();
    }
    parser.Set(CStr(section.Contents()), name, value, line);
  }

  /**
   * One turn of the loop of parser_read: the next identifier is read into
   * idt; a section becomes the current section, a key is handled by
   * ReadKeyInto. Returns 0, and changes no section or option, at the end of
   * the file.
   */
  method ReadEntry(rb: ReadBuf, idt: StrBuf, val: StrBuf, section: StrBuf, parser: ConfigParser.Parser) returns (ri: int)
    requires rb.Valid() && idt.Valid() && val.Valid() && section.Valid() && parser.Valid()
    requires idt != val && idt != section && val != section
    requires idt.buf != val.buf && idt.buf != section.buf && val.buf != section.buf
    modifies rb, idt, idt.buf, val, val.buf, section, section.buf, parser
    ensures rb.Valid() && idt.Valid() && val.Valid() && section.Valid() && parser.Valid()
    ensures idt.buf == old(idt.buf) || fresh(idt.buf)
    ensures val.buf == old(val.buf) || fresh(val.buf)
    ensures section.buf == old(section.buf) || fresh(section.buf)
    ensures idt.buf != val.buf && idt.buf != section.buf && val.buf != section.buf
    ensures ri == NextIdtSpec(rb.data, old(rb.pos)).0
    ensures ri == 0 ==> section.Contents() == old(section.Contents()) && parser.data == old(parser.data)
    ensures ri != 0 ==>
      ReadState(rb.pos, section.Contents(), parser.data) == ReadStep(rb.data, ReadState(old(rb.pos), old(section.Contents()), old(parser.data)), parser.allowDefault, parser.allowEmpty)
  {
    NextIdtResult(rb.data, rb.pos);
    ri := NextIdt(rb, idt);
    if ri == 1 {
      // a section
      section.Reset();
      section.Append(idt.Contents());
    } else if ri == 2 {
      // a key
      ReadKeyInto(rb, val, section, parser, idt.Contents());
    }
  }

  /**
   * parser_read on the contents of a configuration file: identifiers are read
   * in turn until the end of the file.
   */
  method ParserRead(data: seq<char>, parser: ConfigParser.Parser)
    requires parser.Valid()
    modifies parser
    ensures parser.Valid()
    ensures parser.data == ReadFrom(data, ReadState(0, [], old(parser.data)), parser.allowDefault, parser.allowEmpty)
  {
    var rb := new ReadBuf(data);
    var idt := new StrBuf();
    var val := new StrBuf();
    var section := new StrBuf();
    while true
      invariant rb.Valid() && idt.Valid() && val.Valid() && section.Valid() && rb.data == data && parser.Valid()
      invariant fresh(rb) && fresh(idt) && fresh(val) && fresh(section)
      invariant fresh(idt.buf) && fresh(val.buf) && fresh(section.buf)
      invariant idt.buf != val.buf && idt.buf != section.buf && val.buf != section.buf
      invariant ReadFrom(data, ReadState(rb.pos, section.Contents(), parser.data), parser.allowDefault, parser.allowEmpty)
                == ReadFrom(data, ReadState(0, [], old(parser.data)), parser.allowDefault, parser.allowEmpty)
      decreases |data| - rb.pos
    {
      var ri := ReadEntry(rb, idt, val, section, parser);
      if ri == 0 {
        break;
      }
    }
  }

  /** SetIn changes one option: every option that differs afterwards is the one set. */
  lemma SetInChanges(d: ConfigParser.Store, section: seq<char>, option: seq<char>, value: seq<char>, nline: int)
    ensures var d' := ConfigParser.SetIn(d, section, option, value, nline);
      forall s, o :: ConfigParser.Lookup(d', s, o) != ConfigParser.Lookup(d, s, o) ==>
        ConfigParser.Lookup(d', s, o) == Some(ConfigParser.Item(value, nline))
  {
  }

  /**
   * parser_read only adds: every option it changes is stored afterwards, with
   * the number of a line of the file, and with a non-empty value unless empty
   * values are allowed.
   */
  lemma {:induction false} ReadStoresOnlyAllowed(data: seq<char>, s: ReadState, allowDefault: bool, allowEmpty: bool)
    requires s.pos <= |data|
    ensures var r := ReadFrom(data, s, allowDefault, allowEmpty);
      forall sec, o :: ConfigParser.Lookup(r, sec, o) != ConfigParser.Lookup(s.store, sec, o) ==>
        ConfigParser.Lookup(r, sec, o).Some?
        && 1 <= ConfigParser.Lookup(r, sec, o).value.nline <= 1 + Newlines(data)
        && (allowEmpty || |ConfigParser.Lookup(r, sec, o).value.value| > 0)
    decreases |data| - s.pos
  {
    if NextIdtSpec(data, s.pos).0 != 0 {
      var s' := ReadStep(data, s, allowDefault, allowEmpty);
      ReadStoresOnlyAllowed(data, s', allowDefault, allowEmpty);
      ReadStepStoresOnlyAllowed(data, s, allowDefault, allowEmpty);
    }
  }

  /** One turn of parser_read changes at most the option it reads, as ReadStoresOnlyAllowed says. */
  lemma ReadStepStoresOnlyAllowed(data: seq<char>, s: ReadState, allowDefault: bool, allowEmpty: bool)
    requires s.pos <= |data| && NextIdtSpec(data, s.pos).0 != 0
    ensures var r := ReadStep(data, s, allowDefault, allowEmpty).store;
      forall sec, o :: ConfigParser.Lookup(r, sec, o) != ConfigParser.Lookup(s.store, sec, o) ==>
        ConfigParser.Lookup(r, sec, o).Some?
        && 1 <= ConfigParser.Lookup(r, sec, o).value.nline <= 1 + Newlines(data)
        && (allowEmpty || |ConfigParser.Lookup(r, sec, o).value.value| > 0)
  {
    NextIdtResult(data, s.pos);
    var (ri, name, j) := NextIdtSpec(data, s.pos);
    if ri == 2 {
      NextValueResult(data, j);
      var (rv, value, j') := NextValueSpec(data, j);
      if !(rv != 0 || (!allowEmpty && CStr(value) == []) || (!allowDefault && |s.section| == 0)) {
        NewlinesPrefix(data, j);
        SetInChanges(s.store, if |s.section| == 0 then SectionDefault else CStr(s.section), CStr(name), CStr(value), 1 + Newlines(data[..j]));
      }
    }
  }

  /** A prefix holds no more line feeds than the whole. */
  lemma {:induction false} NewlinesPrefix(data: seq<char>, j: nat)
    requires j <= |data|
    ensures Newlines(data[..j]) <= Newlines(data)
    decreases |data| - j
  {
    if j < |data| {
      NewlinesPrefix(data, j + 1);
      assert data[..j + 1][..j] == data[..j];
    } else {
      assert data[..j] == data;
    }
  }

  /** A key read while no section is current is dropped when there is no default section. */
  lemma KeyOutsideSectionDropped(data: seq<char>, j: nat, store: ConfigParser.Store, name: seq<char>, allowEmpty: bool)
    requires j <= |data|
    ensures ReadKey(data, j, [], store, name, false, allowEmpty) == ReadState(NextValueSpec(data, j).2, [], store)
  {
  }

  /** With a default section, a key read while no section is current is stored under DEFAULT, which becomes the current section. */
  lemma KeyOutsideSectionDefault(data: seq<char>, j: nat, store: ConfigParser.Store, name: seq<char>, allowEmpty: bool)
    requires j <= |data|
    requires NextValueSpec(data, j).0 == 0 && (allowEmpty || CStr(NextValueSpec(data, j).1) != [])
    ensures var (_, value, j') := NextValueSpec(data, j);
      ReadKey(data, j, [], store, name, true, allowEmpty)
      == ReadState(j', SectionDefault, ConfigParser.SetIn(store, SectionDefault, CStr(name), CStr(value), 1 + Newlines(data[..j])))
  {
  }

  /** "DEFAULT" holds no '\0': C sees all of it. */
  lemma DefaultIsCString()
    ensures CStr(SectionDefault) == SectionDefault
  {
    CStrSpec(SectionDefault);
  }

  /** A key whose value is empty is dropped unless empty values are allowed. */
  lemma EmptyValueDropped(data: seq<char>, j: nat, section: seq<char>, store: ConfigParser.Store, name: seq<char>, allowDefault: bool)
    requires j <= |data| && CStr(NextValueSpec(data, j).1) == []
    ensures ReadKey(data, j, section, store, name, allowDefault, false) == ReadState(NextValueSpec(data, j).2, section, store)
  {
  }
}
