/**
 The bystander's FORWARD line: client-supplied strings are escaped into bounded
 buffers and printed inside double quotes on one line.
 Source: test-client/qdwin-bystander.c.
 */
module ForwardLine {
  import opened Bytes

  const NL: byte := 10
  const CR: byte := 13
  const SPACE: byte := 32
  const QUOTE: byte := 34
  const QUESTION: byte := 63
  const BACKSLASH: byte := 92
  const LOWER_N: byte := 110
  const LOWER_R: byte := 114
  const DEL: byte := 127

  predicate Control(c: byte) {
    c < SPACE || c == DEL
  }

  /** How one byte is written. */
  function Esc(c: byte): (e: seq<byte>)
    ensures 1 <= |e| <= 2
  {
    if c == NL then [BACKSLASH, LOWER_N]
    else if c == CR then [BACKSLASH, LOWER_R]
    else if c == BACKSLASH then [BACKSLASH, BACKSLASH]
    else if c == QUOTE then [BACKSLASH, QUOTE]
    else if Control(c) then [QUESTION]
    else [c]
  }

  function FlatMap(f: byte -> seq<byte>, s: seq<byte>): seq<byte> {
    if s == [] then [] else f(s[0]) + FlatMap(f, s[1..])
  }

  function EscapeAll(s: seq<byte>): seq<byte> {
    FlatMap(Esc, s)
  }

  /** Byte for byte, in ASCII codes: \n, \r, \\ and \" are two bytes, other control bytes become '?'. */
  lemma EscapeTable(c: byte)
    ensures EscapeAll([c]) ==
            if c == 10 then [92, 110]
            else if c == 13 then [92, 114]
            else if c == 92 then [92, 92]
            else if c == 34 then [92, 34]
            else if c < 32 || c == 127 then [63]
            else [c]
  {
    assert FlatMap(Esc, [c][1..]) == [];
  }

  /** How many source bytes are written into a buffer of size bytes of which at are used. */
  function Taken(src: seq<byte>, at: nat, size: nat): (n: nat)
    ensures n <= |src|
    decreases |src|
  {
    if src == [] || at + 2 >= size then 0
    else 1 + Taken(src[1..], at + |Esc(src[0])|, size)
  }

  /** The part of the source that fits. */
  function Kept(src: seq<byte>, size: nat): seq<byte> {
    src[..Taken(src, 0, size)]
  }

  lemma {:induction false} FlatMapAppend(f: byte -> seq<byte>, s: seq<byte>, c: byte)
    ensures FlatMap(f, s + [c]) == FlatMap(f, s) + f(c)
  {
    if s == [] {
      assert (s + [c])[1..] == [];
    } else {
      FlatMapAppend(f, s[1..], c);
      assert (s + [c])[1..] == s[1..] + [c];
    }
  }

  /** escape_forward_field: dst receives the escaped prefix and a terminating NUL. */
  method Escape(dst: array<byte>, src: seq<byte>) returns (len: nat)
    modifies dst
    ensures dst.Length > 0 ==> len < dst.Length && dst[len] == 0 && dst[..len] == EscapeAll(Kept(src, dst.Length))
    ensures dst.Length == 0 ==> len == 0
  {
    if dst.Length == 0 { return 0; }
    var i, k := 0, 0;
    while k < |src| && i + 2 < dst.Length
      invariant 0 <= k <= |src| && 0 <= i < dst.Length
      invariant dst[..i] == EscapeAll(src[..k])
      invariant Taken(src, 0, dst.Length) == k + Taken(src[k..], i, dst.Length)
    {
      var e := Esc(src[k]);
      FlatMapAppend(Esc, src[..k], src[k]);
      assert src[..k + 1] == src[..k] + [src[k]];
      assert src[k..][1..] == src[k + 1..];
      dst[i] := e[0];
      if |e| == 2 { dst[i + 1] := e[1]; }
      i := i + |e|;
      k := k + 1;
    }
    dst[i] := 0;
    return i;
  }

  /** Nothing is cut short unnecessarily: either all of the source is kept, or at most two bytes are left over. */
  lemma {:induction false} TakenIsMaximal(src: seq<byte>, at: nat, size: nat)
    requires at < size
    ensures var n := Taken(src, at, size);
            var used := at + |EscapeAll(src[..n])|;
            used < size && (n < |src| ==> used + 2 >= size)
    decreases |src|
  {
    if src != [] && at + 2 < size {
      var n := Taken(src[1..], at + |Esc(src[0])|, size);
      TakenIsMaximal(src[1..], at + |Esc(src[0])|, size);
      assert src[..1 + n][1..] == src[1..][..n];
    }
  }

  // ---- what a reader sees

  /** Bytes as they come back: control bytes other than newline and return are lost. */
  function Shown(c: byte): byte {
    if Control(c) && c != NL && c != CR then QUESTION else c
  }

  function ShownAll(s: seq<byte>): seq<byte> {
    seq(|s|, i requires 0 <= i < |s| => Shown(s[i]))
  }

  /** Undo the escaping. */
  function Unescape(t: seq<byte>): Option<seq<byte>> {
    if t == [] then Some([])
    else if t[0] == QUOTE || Control(t[0]) then None
    else if t[0] != BACKSLASH then
      var rest := Unescape(t[1..]);
      if rest.None? then None else Some([t[0]] + rest.value)
    else if |t| == 1 then None
    else
      var rest := Unescape(t[2..]);
      if rest.None? then None
      else if t[1] == LOWER_N then Some([NL] + rest.value)
      else if t[1] == LOWER_R then Some([CR] + rest.value)
      else if t[1] == BACKSLASH || t[1] == QUOTE then Some([t[1]] + rest.value)
      else None
  }

  lemma UnescapeStep(c: byte, t: seq<byte>)
    requires Unescape(t).Some?
    ensures Unescape(Esc(c) + t) == Some([Shown(c)] + Unescape(t).value)
  {
  }

  /** Unescaping gives back the source, up to control bytes shown as '?'. */
  lemma {:induction false} UnescapeEscape(s: seq<byte>)
    ensures Unescape(EscapeAll(s)) == Some(ShownAll(s))
  {
    if s == [] {
      assert ShownAll(s) == [];
    } else {
      UnescapeEscape(s[1..]);
      UnescapeStep(s[0], EscapeAll(s[1..]));
      assert ShownAll(s) == [Shown(s[0])] + ShownAll(s[1..]);
    }
  }

  /** Where a reader of the line is: outside quotes, or inside with the field read so far. */
  datatype Mode = Outside | Inside(field: seq<byte>, escaped: bool)

  /** All quoted fields of a line, in order, as a reader keying on "..." with backslash escapes finds them. */
  function QuotedFields(m: Mode, line: seq<byte>): seq<seq<byte>>
    decreases |line|
  {
    if line == [] then []
    else if m.Outside? then QuotedFields(if line[0] == QUOTE then Inside([], false) else Outside, line[1..])
    else if line[0] == QUOTE && !m.escaped then [m.field] + QuotedFields(Outside, line[1..])
    else QuotedFields(Inside(m.field + [line[0]], line[0] == BACKSLASH && !m.escaped), line[1..])
  }

  lemma {:induction false} ReadText(text: seq<byte>, rest: seq<byte>)
    requires Plain(text)
    ensures QuotedFields(Outside, text + rest) == QuotedFields(Outside, rest)
  {
    if text == [] {
      assert text + rest == rest;
    } else {
      assert (text + rest)[1..] == text[1..] + rest;
      ReadText(text[1..], rest);
    }
  }

  lemma ReadOne(field: seq<byte>, escaped: bool, c: byte, rest: seq<byte>)
    requires c != QUOTE || escaped
    ensures QuotedFields(Inside(field, escaped), [c] + rest)
            == QuotedFields(Inside(field + [c], c == BACKSLASH && !escaped), rest)
  {
  }

  lemma ReadEsc(field: seq<byte>, c: byte, rest: seq<byte>)
    ensures QuotedFields(Inside(field, false), Esc(c) + rest) == QuotedFields(Inside(field + Esc(c), false), rest)
  {
    var e := Esc(c);
    if |e| == 2 {
      assert e + rest == [e[0]] + ([e[1]] + rest);
      ReadOne(field, false, e[0], [e[1]] + rest);
      ReadOne(field + [e[0]], true, e[1], rest);
      assert field + [e[0]] + [e[1]] == field + e;
    } else {
      assert e == [e[0]];
      ReadOne(field, false, e[0], rest);
    }
  }

  /** Reading an escaped field never leaves the field early, whatever it held. */
  lemma {:induction false} ReadEscaped(field: seq<byte>, s: seq<byte>, rest: seq<byte>)
    ensures QuotedFields(Inside(field, false), EscapeAll(s) + rest)
            == QuotedFields(Inside(field + EscapeAll(s), false), rest)
    decreases |s|
  {
    if s == [] {
      assert EscapeAll(s) + rest == rest && field + EscapeAll(s) == field;
    } else {
      var e, tail := Esc(s[0]), EscapeAll(s[1..]);
      assert EscapeAll(s) + rest == e + (tail + rest);
      ReadEsc(field, s[0], tail + rest);
      ReadEscaped(field + e, s[1..], rest);
      assert field + e + tail == field + EscapeAll(s);
    }
  }

  predicate Printable(t: seq<byte>) {
    forall i :: 0 <= i < |t| ==> !Control(t[i])
  }

  lemma {:induction false} EscapedIsPrintable(s: seq<byte>)
    ensures Printable(EscapeAll(s))
  {
    if s != [] {
      EscapedIsPrintable(s[1..]);
      assert Printable(Esc(s[0]));
    }
  }

  // ---- the whole line

  /** Text that neither opens a field nor ends the line. */
  predicate Plain(s: seq<byte>) {
    forall i :: 0 <= i < |s| ==> s[i] != QUOTE && s[i] != NL
  }

  /**
   The line is text, app_id in quotes, text, title in quotes, text, newline. The
   texts hold the keywords and the decimal handle and xwayland numbers.
   */
  function Line(opening: seq<byte>, appId: seq<byte>, middle: seq<byte>, title: seq<byte>, ending: seq<byte>): seq<byte> {
    Quoted(opening, appId, Quoted(middle, title, ending + [NL]))
  }

  /** Text, an escaped field in double quotes, and the rest of the line. */
  function Quoted(text: seq<byte>, field: seq<byte>, rest: seq<byte>): seq<byte> {
    text + [QUOTE] + EscapeAll(field) + [QUOTE] + rest
  }

  lemma ReadQuoted(text: seq<byte>, field: seq<byte>, rest: seq<byte>)
    requires Plain(text)
    ensures QuotedFields(Outside, Quoted(text, field, rest)) == [EscapeAll(field)] + QuotedFields(Outside, rest)
  {
    var e := EscapeAll(field);
    var body := e + ([QUOTE] + rest);
    assert Quoted(text, field, rest) == text + ([QUOTE] + body);
    ReadText(text, [QUOTE] + body);
    assert ([QUOTE] + body)[1..] == body;
    ReadEscaped([], field, [QUOTE] + rest);
    assert [] + e == e && ([QUOTE] + rest)[1..] == rest;
  }

  /** A reader finds exactly the two intended fields, and they decode to what the client sent. */
  lemma LineHasTwoFields(opening: seq<byte>, appId: seq<byte>, middle: seq<byte>, title: seq<byte>, ending: seq<byte>)
    requires Plain(opening) && Plain(middle) && Plain(ending)
    ensures QuotedFields(Outside, Line(opening, appId, middle, title, ending)) == [EscapeAll(appId), EscapeAll(title)]
    ensures Unescape(EscapeAll(appId)) == Some(ShownAll(appId)) && Unescape(EscapeAll(title)) == Some(ShownAll(title))
  {
    ReadText(ending, [NL]);
    assert QuotedFields(Outside, [NL]) == [];
    ReadQuoted(middle, title, ending + [NL]);
    ReadQuoted(opening, appId, Quoted(middle, title, ending + [NL]));
    UnescapeEscape(appId);
    UnescapeEscape(title);
  }

  /** A newline at the end and nowhere else. */
  predicate OneLine(line: seq<byte>) {
    line != [] && forall i :: 0 <= i < |line| ==> (line[i] == NL <==> i == |line| - 1)
  }

  lemma QuotedIsOneLine(text: seq<byte>, field: seq<byte>, rest: seq<byte>)
    requires Plain(text) && OneLine(rest)
    ensures OneLine(Quoted(text, field, rest))
  {
    EscapedIsPrintable(field);
    var front := text + [QUOTE] + EscapeAll(field) + [QUOTE];
    assert Quoted(text, field, rest) == front + rest;
    assert forall i :: 0 <= i < |front| ==> front[i] != NL;
  }

  /** No client string can end the line early or start another one. */
  lemma LineIsOneLine(opening: seq<byte>, appId: seq<byte>, middle: seq<byte>, title: seq<byte>, ending: seq<byte>)
    requires Plain(opening) && Plain(middle) && Plain(ending)
    ensures OneLine(Line(opening, appId, middle, title, ending))
  {
    QuotedIsOneLine(middle, title, ending + [NL]);
    QuotedIsOneLine(opening, appId, Quoted(middle, title, ending + [NL]));
  }
}
