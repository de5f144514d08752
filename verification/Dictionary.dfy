/** The dictionary format: the printer that captures tokens from a running target, and the loader that
    reads a dictionary file back. */
module Dictionary {
  import opened Wire

  type Bytes = seq<byte>

  const MIN_AUTO_EXTRA: nat := 3
  const MAX_AUTO_EXTRA: nat := 32
  const MAX_DICT_FILE: nat := 128
  const MAX_LINE: nat := 8192

  const NUL: byte := 0
  const NEWLINE: byte := 10
  const QUOTE: byte := 34
  const HASH: byte := 35
  const EQUALS: byte := 61
  const AT: byte := 64
  const BACKSLASH: byte := 92
  const UNDERSCORE: byte := 95
  const LETTER_X: byte := 120

  predicate IsSpace(b: byte) { b == 32 || 9 <= b <= 13 }

  predicate IsDigit(b: byte) { 48 <= b <= 57 }

  predicate IsAlnum(b: byte) { IsDigit(b) || 65 <= b <= 90 || 97 <= b <= 122 }

  predicate IsHex(b: byte) { IsDigit(b) || 65 <= b <= 70 || 97 <= b <= 102 }

  function HexValue(b: byte): (v: nat)
    requires IsHex(b)
    ensures v < 16
  {
    if IsDigit(b) then b as nat - 48 else if b <= 70 then b as nat - 55 else b as nat - 87
  }

  // ---------------------------------------------------------------------------------------------
  // Printing

  predicate MustEscape(b: byte) { b < 32 || b >= 127 || b == QUOTE || b == BACKSLASH }

  function HexDigit(v: nat): (b: byte)
    requires v < 16
    ensures IsHex(b) && HexValue(b) == v
  {
    if v < 10 then (48 + v) as byte else (87 + v) as byte
  }

  function Escape(b: byte): Bytes {
    if MustEscape(b) then [BACKSLASH, LETTER_X, HexDigit(b as nat / 16), HexDigit(b as nat % 16)] else [b]
  }

  /** What stands between the quotes. */
  function Body(s: Bytes): Bytes {
    if s == [] then [] else Escape(s[0]) + Body(s[1..])
  }

  /** The bytes of a token that are printed: in text mode those before the first NUL. */
  function Printed(s: Bytes, text: bool): Bytes {
    if s == [] || (text && s[0] == NUL) then [] else [s[0]] + Printed(s[1..], text)
  }

  function Quoted(s: Bytes): Bytes { [QUOTE] + Body(s) + [QUOTE] }

  function Line(s: Bytes): Bytes { Quoted(s) + [NEWLINE] }

  /** What `__tokencap_dump` writes for a token. */
  function Dumped(s: Bytes, text: bool): Bytes {
    if MIN_AUTO_EXTRA <= |s| <= MAX_AUTO_EXTRA then Line(Printed(s, text)) else []
  }

  lemma {:induction false} BodySnoc(s: Bytes, b: byte)
    ensures Body(s + [b]) == Body(s) + Escape(b)
  {
    if s == [] {
      assert s + [b] == [b];
    } else {
      assert (s + [b])[0] == s[0] && (s + [b])[1..] == s[1..] + [b];
      BodySnoc(s[1..], b);
    }
  }

  lemma {:induction false} PrintedPrefix(s: Bytes, text: bool, i: nat)
    requires i <= |s| && (text ==> forall j :: 0 <= j < i ==> s[j] != NUL)
    ensures i == |s| || (text && s[i] == NUL) ==> Printed(s, text) == s[..i]
    ensures |Printed(s, text)| <= |s|
  {
    if s != [] && !(text && s[0] == NUL) {
      PrintedPrefix(s[1..], text, if i == 0 then 0 else i - 1);
      if i > 0 { assert s[..i] == [s[0]] + s[1..][..i - 1]; }
    }
  }

  /** `__tokencap_dump`, filling a buffer of `MAX_AUTO_EXTRA * 4 + 1` bytes. */
  method Dump(token: Bytes, text: bool) returns (out: Bytes)
    ensures out == Dumped(token, text)
  {
    if |token| < MIN_AUTO_EXTRA || |token| > MAX_AUTO_EXTRA {
      return [];
    }
    var buf: Bytes := [];
    var i := 0;
    while i < |token|
      invariant 0 <= i <= |token| && buf == Body(token[..i]) && |buf| <= 4 * i
      invariant text ==> forall j :: 0 <= j < i ==> token[j] != NUL
    {
      if text && token[i] == NUL {
        break;
      }
      BodySnoc(token[..i], token[i]);
      assert token[..i + 1] == token[..i] + [token[i]];
      buf := buf + Escape(token[i]);
      i := i + 1;
    }
    // the terminating NUL still fits
    assert |buf| < MAX_AUTO_EXTRA * 4 + 1;
    PrintedPrefix(token, text, i);
    out := [QUOTE] + buf + [QUOTE] + [NEWLINE];
  }

  // ---------------------------------------------------------------------------------------------
  // Loading

  datatype Fault = MalformedEnd | MalformedStart | EmptyKeyword | NonPrintable | BadEscape | TooBig

  datatype Entry = Skipped | Keyword(data: Bytes) | Fatal(fault: Fault)

  /** What stands next between the quotes: a byte of the keyword and how much of the line it takes. */
  datatype Item = Item(b: byte, width: nat) | Bad(fault: Fault)

  function Next(s: Bytes): (item: Item)
    requires s != []
    ensures item.Item? ==> 1 <= item.width <= |s|
  {
    if s[0] < 32 || s[0] >= 128 then Bad(NonPrintable)
    else if s[0] != BACKSLASH then Item(s[0], 1)
    else if |s| > 1 && (s[1] == BACKSLASH || s[1] == QUOTE) then Item(s[1], 2)
    else if |s| > 3 && s[1] == LETTER_X && IsHex(s[2]) && IsHex(s[3]) then
      Item((HexValue(s[2]) * 16 + HexValue(s[3])) as byte, 4)
    else Bad(BadEscape)
  }

  /** The keyword between the quotes, with escapes resolved. */
  function Unescape(s: Bytes): Entry
    decreases |s|
  {
    if s == [] then Keyword([])
    else match Next(s)
      case Bad(fault) => Fatal(fault)
      case Item(b, width) => Then(b, Unescape(s[width..]))
  }

  function Then(b: byte, rest: Entry): Entry {
    if rest.Keyword? then Keyword([b] + rest.data) else rest
  }

  /** The space allocated for a keyword, one byte per byte between the quotes, is enough for any line. */
  lemma {:induction false} KeywordFits(s: Bytes)
    ensures Unescape(s).Keyword? ==> |Unescape(s).data| <= |s|
    decreases |s|
  {
    if s != [] && Next(s).Item? { KeywordFits(s[Next(s).width..]); }
  }

  lemma UnescapeStep(s: Bytes)
    requires s != []
    ensures var n := Next(s);
      Unescape(s) == if n.Bad? then Fatal(n.fault) else Then(n.b, Unescape(s[n.width..]))
  {
  }

  lemma NextEscaped(b: byte, rest: Bytes)
    ensures Next(Escape(b) + rest) == Item(b, |Escape(b)|)
  {
    if MustEscape(b) {
      var s := Escape(b) + rest;
      assert s[0] == BACKSLASH && s[1] == LETTER_X && s[2] == HexDigit(b as nat / 16) && s[3] == HexDigit(b as nat % 16);
    }
  }

  /** Escaping and unescaping are inverse, for all bytes. */
  lemma {:induction false} UnescapeBody(s: Bytes)
    ensures Unescape(Body(s)) == Keyword(s)
  {
    hide Unescape, Next, Escape;
    if s == [] {
      UnescapeNothing();
    } else {
      UnescapeBody(s[1..]);
      UnescapeMore(s[0], Body(s[1..]));
      assert s == [s[0]] + s[1..];
    }
  }

  lemma UnescapeNothing()
    ensures Unescape([]) == Keyword([])
  {
  }

  lemma UnescapeMore(b: byte, rest: Bytes)
    ensures Unescape(Escape(b) + rest) == Then(b, Unescape(rest))
  {
    hide Unescape, Next, Then;
    var e := Escape(b);
    NextEscaped(b, rest);
    UnescapeStep(e + rest);
    assert (e + rest)[|e|..] == rest;
  }

  datatype Kind = Space | Label | Digit | Gap

  predicate Is(kind: Kind, b: byte) {
    match kind
    case Space => IsSpace(b)
    case Label => IsAlnum(b) || b == UNDERSCORE
    case Digit => IsDigit(b)
    case Gap => IsSpace(b) || b == EQUALS
  }

  function SkipWhile(kind: Kind, s: Bytes): Bytes {
    if s != [] && Is(kind, s[0]) then SkipWhile(kind, s[1..]) else s
  }

  function TrimRight(s: Bytes): Bytes {
    if s != [] && IsSpace(s[|s| - 1]) then TrimRight(s[..|s| - 1]) else s
  }

  /** A C string ends at its first NUL. */
  function CString(s: Bytes): Bytes {
    if s == [] || s[0] == NUL then [] else [s[0]] + CString(s[1..])
  }

  function Decimal(s: Bytes, acc: nat): nat {
    if s != [] && IsDigit(s[0]) then Decimal(s[1..], acc * 10 + (s[0] as nat - 48)) else acc
  }

  /** `atoi` */
  function Atoi(s: Bytes): int {
    var t := SkipWhile(Space, s);
    if t != [] && t[0] == 45 then 0 - Decimal(t[1..], 0)
    else if t != [] && t[0] == 43 then Decimal(t[1..], 0)
    else Decimal(t, 0)
  }

  /** One line of a dictionary file, at dictionary level `level`. */
  function ParsedLine(line: Bytes, level: nat): Entry {
    var s := TrimRight(SkipWhile(Space, CString(line)));
    if s == [] || s[0] == HASH then Skipped
    else if s[|s| - 1] != QUOTE then Fatal(MalformedEnd)
    else AfterLabel(SkipWhile(Label, s[..|s| - 1]), level)
  }

  /** `@` and a level may follow the label; the comparison is unsigned, so a negative level is too high. */
  function AfterLabel(s: Bytes, level: nat): Entry {
    if s != [] && s[0] == AT then
      var n := Atoi(s[1..]);
      if n < 0 || n > level then Skipped else AfterLevel(SkipWhile(Digit, s[1..]))
    else AfterLevel(s)
  }

  function AfterLevel(s: Bytes): Entry {
    var t := SkipWhile(Gap, s);
    if t == [] || t[0] != QUOTE then Fatal(MalformedStart)
    else if |t| == 1 then Fatal(EmptyKeyword)
    else
      var e := Unescape(t[1..]);
      if e.Keyword? && |e.data| > MAX_DICT_FILE then Fatal(TooBig) else e
  }

  function Prepend(done: Bytes, e: Entry): Entry {
    if e.Keyword? then Keyword(done + e.data) else e
  }

  /** The copying loop of the loader. */
  method CopyKeyword(s: Bytes) returns (e: Entry)
    ensures e == Unescape(s)
  {
    hide Next, Unescape;
    UnescapeNothing();
    var l, data: Bytes := s, [];
    while l != []
      invariant Unescape(s) == Prepend(data, Unescape(l)) && |data| + |l| <= |s|
      decreases |l|
    {
      UnescapeStep(l);
      match Next(l) {
        case Bad(fault) => return Fatal(fault);
        case Item(b, width) =>
          data := data + [b];
          l := l[width..];
      }
    }
    return Keyword(data);
  }

  // ---------------------------------------------------------------------------------------------
  // Whole files

  datatype Extras = Loaded(keywords: seq<Bytes>) | Failed(fault: Fault)

  /** Length of the line that `fgets` returns: to the newline, or as much as its buffer holds. */
  function LineLength(file: Bytes, room: nat): (n: nat)
    requires room > 0
    ensures n <= |file| && n <= room && (file != [] ==> n > 0)
  {
    if file == [] then 0
    else if file[0] == NEWLINE || room == 1 then 1
    else 1 + LineLength(file[1..], room - 1)
  }

  function Load(file: Bytes, level: nat): Extras
    decreases |file|
  {
    if file == [] then Loaded([])
    else
      var n := LineLength(file, MAX_LINE - 1);
      var rest := Load(file[n..], level);
      match ParsedLine(file[..n], level)
      case Skipped => rest
      case Fatal(fault) => Failed(fault)
      case Keyword(data) => if rest.Loaded? then Loaded([data] + rest.keywords) else rest
  }

  /** A token handed to the printer. */
  datatype Token = Token(data: Bytes, text: bool)

  predicate Emitted(t: Token) { MIN_AUTO_EXTRA <= |t.data| <= MAX_AUTO_EXTRA }

  function DumpAll(tokens: seq<Token>): Bytes {
    if tokens == [] then [] else Dumped(tokens[0].data, tokens[0].text) + DumpAll(tokens[1..])
  }

  /** The keywords a reader of the dump should see. */
  function Expected(tokens: seq<Token>): seq<Bytes> {
    if tokens == [] then []
    else if Emitted(tokens[0]) then [Printed(tokens[0].data, tokens[0].text)] + Expected(tokens[1..])
    else Expected(tokens[1..])
  }

  /** A text token that begins with a NUL prints as an empty keyword, which the loader refuses. */
  predicate Blank(t: Token) { Emitted(t) && t.text && t.data[0] == NUL }

  predicate Plain(b: byte) { 32 <= b < 127 }

  lemma {:induction false} BodyIsPlain(s: Bytes)
    ensures forall i :: 0 <= i < |Body(s)| ==> Plain(Body(s)[i])
    ensures |s| <= |Body(s)| <= 4 * |s|
  {
    if s != [] { BodyIsPlain(s[1..]); }
  }

  lemma {:induction false} PlainCString(s: Bytes)
    requires forall i :: 0 <= i < |s| ==> s[i] != NUL
    ensures CString(s) == s
  {
    if s != [] {
      PlainCString(s[1..]);
      assert s == [s[0]] + s[1..];
    }
  }

  lemma TrimNewline(s: Bytes)
    requires s != [] && !IsSpace(s[|s| - 1])
    ensures TrimRight(s + [NEWLINE]) == s
  {
    assert (s + [NEWLINE])[..|s|] == s;
  }

  lemma {:induction false} PlainLine(s: Bytes, rest: Bytes, room: nat)
    requires |s| < room && forall i :: 0 <= i < |s| ==> s[i] != NEWLINE
    ensures LineLength(s + [NEWLINE] + rest, room) == |s| + 1
  {
    var f := s + [NEWLINE] + rest;
    if s == [] {
      assert f[0] == NEWLINE;
    } else {
      assert f[0] == s[0] && f[1..] == s[1..] + [NEWLINE] + rest;
      PlainLine(s[1..], rest, room - 1);
    }
  }

  lemma Trimmed(q: Bytes)
    requires q != [] && q[0] == QUOTE && q[|q| - 1] == QUOTE && forall i :: 0 <= i < |q| ==> q[i] != NUL
    ensures TrimRight(SkipWhile(Space, CString(q + [NEWLINE]))) == q
  {
    hide CString, TrimRight, SkipWhile;
    PlainCString(q + [NEWLINE]);
    SkipNone(Space, q + [NEWLINE]);
    TrimNewline(q);
  }

  lemma SkipNone(kind: Kind, s: Bytes)
    requires s != [] && !Is(kind, s[0])
    ensures SkipWhile(kind, s) == s
  {
  }

  lemma Unquoted(b: Bytes, level: nat)
    ensures AfterLabel(SkipWhile(Label, [QUOTE] + b), level) ==
      if b == [] then Fatal(EmptyKeyword)
      else if Unescape(b).Keyword? && |Unescape(b).data| > MAX_DICT_FILE then Fatal(TooBig)
      else Unescape(b)
  {
    hide Unescape, Atoi;
    var t := [QUOTE] + b;
    assert t[1..] == b;
    SkipNone(Label, t);
    SkipNone(Gap, t);
    hide SkipWhile;
  }

  /** A printed line reads back as the bytes that were printed. */
  lemma LineRoundTrip(s: Bytes, level: nat)
    requires |s| <= MAX_DICT_FILE
    ensures ParsedLine(Line(s), level) == if s == [] then Fatal(EmptyKeyword) else Keyword(s)
  {
    hide Unescape, Body, AfterLabel, SkipWhile, TrimRight, CString;
    UnescapeBody(s);
    var b, q := Body(s), Quoted(s);
    QuotedIsPlain(s);
    Trimmed(q);
    assert q[..|q| - 1] == [QUOTE] + b;
    Unquoted(b, level);
  }

  lemma {:induction false} SkipAll(kind: Kind, s: Bytes, rest: Bytes)
    requires (forall i :: 0 <= i < |s| ==> Is(kind, s[i])) && rest != [] && !Is(kind, rest[0])
    ensures SkipWhile(kind, s + rest) == rest
  {
    if s == [] {
      assert s + rest == rest;
    } else {
      assert (s + rest)[0] == s[0] && (s + rest)[1..] == s[1..] + rest;
      SkipAll(kind, s[1..], rest);
    }
  }

  /** The value of decimal digits. */
  function Number(digits: Bytes): nat
    requires forall i :: 0 <= i < |digits| ==> IsDigit(digits[i])
  {
    if digits == [] then 0
    else
      var last := digits[|digits| - 1];
      assert IsDigit(last);
      10 * Number(digits[..|digits| - 1]) + (last as nat - 48)
  }

  lemma {:induction false} DecimalIs(done: Bytes, digits: Bytes, rest: Bytes)
    requires forall i :: 0 <= i < |done| ==> IsDigit(done[i])
    requires (forall i :: 0 <= i < |digits| ==> IsDigit(digits[i])) && rest != [] && !IsDigit(rest[0])
    ensures forall i :: 0 <= i < |done + digits| ==> IsDigit((done + digits)[i])
    ensures Decimal(digits + rest, Number(done)) == Number(done + digits)
    decreases |digits|
  {
    if digits == [] {
      assert digits + rest == rest && done + digits == done;
    } else {
      var done' := done + [digits[0]];
      assert (digits + rest)[0] == digits[0] && (digits + rest)[1..] == digits[1..] + rest;
      assert done'[..|done|] == done && done' + digits[1..] == done + digits;
      DecimalIs(done', digits[1..], rest);
    }
  }

  lemma LevelOf(digits: Bytes, rest: Bytes)
    requires digits != [] && (forall i :: 0 <= i < |digits| ==> IsDigit(digits[i])) && rest != [] && !IsDigit(rest[0])
    ensures Atoi(digits + rest) == Number(digits)
  {
    hide Decimal;
    SkipNone(Space, digits + rest);
    DecimalIs([], digits, rest);
    assert [] + digits == digits;
  }

  ghost predicate LineParts(tag: Bytes, digits: Bytes) {
    && (forall i :: 0 <= i < |tag| ==> Is(Label, tag[i]))
    && digits != [] && (forall i :: 0 <= i < |digits| ==> IsDigit(digits[i]))
  }

  lemma AfterLabelled(tag: Bytes, digits: Bytes, b: Bytes, level: nat)
    requires LineParts(tag, digits)
    ensures AfterLabel(SkipWhile(Label, tag + ([AT] + (digits + ([EQUALS, QUOTE] + b)))), level) ==
      if Number(digits) > level then Skipped
      else if b == [] then Fatal(EmptyKeyword)
      else if Unescape(b).Keyword? && |Unescape(b).data| > MAX_DICT_FILE then Fatal(TooBig)
      else Unescape(b)
  {
    hide Unescape, Atoi, Number;
    var tail := [EQUALS, QUOTE] + b;
    var x := [AT] + (digits + tail);
    SkipAll(Label, tag, x);
    assert x[1..] == digits + tail;
    LevelOf(digits, tail);
    SkipAll(Digit, digits, tail);
    assert tail[1..] == [QUOTE] + b && ([QUOTE] + b)[1..] == b;
    SkipNone(Gap, [QUOTE] + b);
  }

  /** A labelled line with a level reads as the bytes between the quotes if the level is not above the one asked for,
      and is skipped otherwise. */
  lemma LabelledLine(tag: Bytes, digits: Bytes, s: Bytes, level: nat)
    requires LineParts(tag, digits) && |s| <= MAX_DICT_FILE
    ensures ParsedLine(tag + [AT] + digits + [EQUALS] + Line(s), level) ==
      if Number(digits) > level then Skipped else if s == [] then Fatal(EmptyKeyword) else Keyword(s)
  {
    hide Unescape, Body, AfterLabel, SkipWhile, TrimRight, CString, Number;
    UnescapeBody(s);
    QuotedIsPlain(s);
    var b := Body(s);
    var q := tag + ([AT] + (digits + ([EQUALS, QUOTE] + b))) + [QUOTE];
    assert tag + [AT] + digits + [EQUALS] + Line(s) == q + [NEWLINE];
    LabelledIsPlain(tag, digits, s, q);
    PlainCString(q + [NEWLINE]);
    SkipNone(Space, q + [NEWLINE]);
    TrimNewline(q);
    assert q[..|q| - 1] == tag + ([AT] + (digits + ([EQUALS, QUOTE] + b)));
    AfterLabelled(tag, digits, b, level);
  }

  lemma LabelledIsPlain(tag: Bytes, digits: Bytes, s: Bytes, q: Bytes)
    requires LineParts(tag, digits) && q == tag + ([AT] + (digits + ([EQUALS, QUOTE] + Body(s)))) + [QUOTE]
    ensures !IsSpace(q[0]) && q[0] != HASH && q[|q| - 1] == QUOTE
    ensures forall i :: 0 <= i < |q| ==> q[i] != NUL
  {
    hide Body;
    QuotedIsPlain(s);
    var head := tag + [AT] + digits + [EQUALS];
    assert q == head + Quoted(s);
    forall i | 0 <= i < |q| ensures q[i] != NUL {
      if i >= |head| { assert q[i] == Quoted(s)[i - |head|]; } else { assert q[i] == head[i]; }
    }
  }

  /** What is printed as it is. */
  lemma EscapeMeans(b: byte)
    ensures Escape(b) == [b] <==> 32 <= b <= 126 && b != 34 && b != 92
  {
  }

  /** A letter, a quote, a NUL and the byte 255 are printed as "A\x22\x00\xff". */
  lemma LineExample()
    ensures Line([65, 34, 0, 255]) == [34, 65, 92, 120, 50, 50, 92, 120, 48, 48, 92, 120, 102, 102, 34, 10]
  {
    hide Body;
    BodySnoc([], 65);
    BodySnoc([65], 34);
    BodySnoc([65, 34], 0);
    BodySnoc([65, 34, 0], 255);
    assert [] + [65] == [65] && [65] + [34] == [65, 34] && [65, 34] + [0] == [65, 34, 0];
    assert [65, 34, 0] + [255] == [65, 34, 0, 255];
    NoBody();
  }

  lemma NoBody()
    ensures Body([]) == []
  {
  }

  lemma QuotedIsPlain(s: Bytes)
    ensures |s| + 2 <= |Quoted(s)| <= 4 * |s| + 2 && (Body(s) == [] <==> s == [])
    ensures forall i :: 0 <= i < |Quoted(s)| ==> Plain(Quoted(s)[i])
  {
    hide Body;
    BodyIsPlain(s);
  }

  lemma LoadLine(s: Bytes, rest: Bytes, level: nat)
    requires |s| <= MAX_AUTO_EXTRA
    ensures Load(Line(s) + rest, level) ==
      if s == [] then Failed(EmptyKeyword)
      else if Load(rest, level).Loaded? then Loaded([s] + Load(rest, level).keywords) else Load(rest, level)
  {
    hide ParsedLine, Quoted, LineLength;
    QuotedIsPlain(s);
    var q, file := Quoted(s), Line(s) + rest;
    PlainLine(q, rest, MAX_LINE - 1);
    assert file[..|q| + 1] == Line(s) && file[|q| + 1..] == rest;
    LineRoundTrip(s, level);
    LoadStep(file, level, |q| + 1);
    hide Load;
  }

  function Prefixed(s: Bytes, rest: Extras): Extras {
    if rest.Loaded? then Loaded([s] + rest.keywords) else rest
  }

  lemma LoadToken(t: Token, rest: Bytes, level: nat)
    ensures Load(Dumped(t.data, t.text) + rest, level) ==
      if !Emitted(t) then Load(rest, level)
      else if Blank(t) then Failed(EmptyKeyword)
      else Prefixed(Printed(t.data, t.text), Load(rest, level))
  {
    hide Load, Line;
    if Emitted(t) {
      PrintedPrefix(t.data, t.text, 0);
      assert Blank(t) <==> Printed(t.data, t.text) == [];
      LoadLine(Printed(t.data, t.text), rest, level);
    } else {
      assert Dumped(t.data, t.text) + rest == rest;
    }
  }

  ghost predicate NoneBlank(tokens: seq<Token>) {
    forall i :: 0 <= i < |tokens| ==> !Blank(tokens[i])
  }

  lemma NoneBlankSplit(tokens: seq<Token>)
    requires tokens != []
    ensures NoneBlank(tokens) <==> !Blank(tokens[0]) && NoneBlank(tokens[1..])
  {
    hide Blank;
    assert forall i :: 0 < i < |tokens| ==> tokens[i] == tokens[1..][i - 1];
  }

  /** Whatever tokens are captured, loading the dump gives exactly the printed bytes of those in the length
      range, in order, if none of them is a text token that begins with a NUL, and fails if one is. */
  lemma {:induction false} FileRoundTrip(tokens: seq<Token>, level: nat)
    ensures Load(DumpAll(tokens), level) == if NoneBlank(tokens) then Loaded(Expected(tokens)) else Failed(EmptyKeyword)
  {
    hide Load, Dumped, Printed;
    if tokens == [] {
      LoadNothing(level);
    } else {
      FileRoundTrip(tokens[1..], level);
      NoneBlankSplit(tokens);
      LoadToken(tokens[0], DumpAll(tokens[1..]), level);
    }
  }

  lemma LoadNothing(level: nat)
    ensures Load([], level) == Loaded([])
  {
  }

  lemma LoadStep(file: Bytes, level: nat, n: nat)
    requires file != [] && n == LineLength(file, MAX_LINE - 1)
    ensures Load(file, level) ==
      match ParsedLine(file[..n], level)
      case Skipped => Load(file[n..], level)
      case Fatal(fault) => Failed(fault)
      case Keyword(data) => Prefixed(data, Load(file[n..], level))
  {
  }

  /** The loop of `load_extras_file` over the lines. */
  method LoadFile(file: Bytes, level: nat) returns (r: Extras)
    ensures r == Load(file, level)
  {
    hide ParsedLine, Load, LineLength;
    LoadNothing(level);
    var rest, keywords: seq<Bytes> := file, [];
    while rest != []
      invariant Load(file, level) == PrefixedAll(keywords, Load(rest, level))
      decreases |rest|
    {
      var n := LineLength(rest, MAX_LINE - 1);
      LoadStep(rest, level, n);
      var e := ParseLine(rest[..n], level);
      match e {
        case Skipped =>
        case Fatal(fault) => return Failed(fault);
        case Keyword(data) => keywords := keywords + [data];
      }
      rest := rest[n..];
    }
    return Loaded(keywords);
  }

  function PrefixedAll(done: seq<Bytes>, rest: Extras): Extras {
    if rest.Loaded? then Loaded(done + rest.keywords) else rest
  }

  /** Advance a pointer while the bytes it meets are of a kind. */
  method Skip(kind: Kind, s: Bytes) returns (r: Bytes)
    ensures r == SkipWhile(kind, s)
  {
    r := s;
    while r != [] && Is(kind, r[0])
      invariant SkipWhile(kind, r) == SkipWhile(kind, s)
      decreases |r|
    {
      r := r[1..];
    }
  }

  method ParseLine(line: Bytes, level: nat) returns (e: Entry)
    ensures e == ParsedLine(line, level)
  {
    hide Unescape, Atoi;
    var s := Skip(Space, CString(line));
    ghost var s0 := s;
    while s != [] && IsSpace(s[|s| - 1])
      invariant TrimRight(s) == TrimRight(s0)
      decreases |s|
    {
      s := s[..|s| - 1];
    }
    if s == [] || s[0] == HASH {
      return Skipped;
    }
    if s[|s| - 1] != QUOTE {
      return Fatal(MalformedEnd);
    }
    s := Skip(Label, s[..|s| - 1]);
    if s != [] && s[0] == AT {
      s := s[1..];
      var n := Atoi(s);
      if n < 0 || n > level {
        return Skipped;
      }
      s := Skip(Digit, s);
    }
    s := Skip(Gap, s);
    if s == [] || s[0] != QUOTE {
      return Fatal(MalformedStart);
    }
    s := s[1..];
    if s == [] {
      return Fatal(EmptyKeyword);
    }
    e := CopyKeyword(s);
    if e.Keyword? && |e.data| > MAX_DICT_FILE {
      return Fatal(TooBig);
    }
  }
}
