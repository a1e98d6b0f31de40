// generate_c_array (linear_model_tflite/model_src/main.py) and its two variants: a byte
// sequence printed as a C array plus its length. A reader for that fragment of C, written
// from the C grammar (tokens, then integer constants, sections 6.4 and 6.4.4.1 of ISO C11),
// is proved to recover the name, the bytes and the length from what is printed.
module HeaderFile {
  import opened Common

  type Byte = b: int | 0 <= b < 256

  // ----- printing -----

  function HexDigit(d: int): char
    requires 0 <= d < 16
  {
    if d < 10 then (d + '0' as int) as char else (d - 10 + 'a' as int) as char
  }

  /** f"0x{b:02x}" */
  function HexByte(b: Byte): string {
    "0x" + [HexDigit(b / 16), HexDigit(b % 16)]
  }

  function Decimal(n: nat): string {
    (if n < 10 then [] else Decimal(n / 10)) + [(n % 10 + '0' as int) as char]
  }

  /** sep.join(parts) */
  function Join(sep: string, parts: seq<string>): string {
    if parts == [] then []
    else if |parts| == 1 then parts[0]
    else parts[0] + sep + Join(sep, parts[1..])
  }

  function HexBytes(bytes: seq<Byte>): seq<string> {
    seq(|bytes|, i requires 0 <= i < |bytes| => HexByte(bytes[i]))
  }

  /** The three printers differ only in spacing. */
  datatype Style = Linear | Mcc | Sine

  function Print(style: Style, name: string, bytes: seq<Byte>): string {
    match style
    case Linear =>
      "const unsigned char " + name + "[] = {" + Join(", ", HexBytes(bytes)) + "};\n"
      + "const unsigned int " + name + "_len = " + Decimal(|bytes|) + ";\n"
    case Mcc =>
      "const unsigned char " + name + "[]={ " + Join(",", HexBytes(bytes)) + "};\n"
      + "const unsigned int " + name + "_len=" + Decimal(|bytes|) + ";\n"
    case Sine =>
      "const unsigned char " + name + "[] = {" + Join(",", HexBytes(bytes)) + "};\n"
      + "const unsigned int " + name + "_len = " + Decimal(|bytes|) + ";\n"
  }

  // ----- reading: tokens -----

  datatype Token = Word(text: string) | Punct(c: char)

  predicate IsWordChar(c: char) {
    'a' <= c <= 'z' || 'A' <= c <= 'Z' || '0' <= c <= '9' || c == '_'
  }

  predicate IsSpace(c: char) {
    c == ' ' || c == '\n'
  }

  predicate IsWord(w: string) {
    w != [] && forall i :: 0 <= i < |w| ==> IsWordChar(w[i])
  }

  function WordLength(s: string): (n: nat)
    ensures n <= |s|
  {
    if s == [] || !IsWordChar(s[0]) then 0 else 1 + WordLength(s[1..])
  }

  /** Longest-match tokens: identifiers, keywords and constants are words, anything else that is
      not white space is a token of its own. */
  function Lex(s: string): seq<Token>
    decreases |s|
  {
    if s == [] then []
    else if IsSpace(s[0]) then Lex(s[1..])
    else if IsWordChar(s[0]) then
      var n := WordLength(s);
      [Word(s[..n])] + Lex(s[n..])
    else [Punct(s[0])] + Lex(s[1..])
  }

  // ----- reading: constants -----

  function DigitValue(c: char): int {
    if '0' <= c <= '9' then c as int - '0' as int
    else if 'a' <= c <= 'f' then c as int - 'a' as int + 10
    else if 'A' <= c <= 'F' then c as int - 'A' as int + 10
    else 16
  }

  /** The value of a digit string in a base, if every digit is below it. */
  function Digits(base: nat, s: string): Option<nat> {
    if s == [] then Some(0)
    else
      var d := DigitValue(s[|s| - 1]);
      var front := Digits(base, s[..|s| - 1]);
      if front == None || d >= base then None else Some(front.value * base + d)
  }

  /** An integer constant: hexadecimal, octal or decimal, by its prefix. */
  function Constant(w: string): Option<nat> {
    if |w| > 2 && w[0] == '0' && (w[1] == 'x' || w[1] == 'X') then Digits(16, w[2..])
    else if w != [] && w[0] == '0' then Digits(8, w)
    else if w != [] then Digits(10, w)
    else None
  }

  // ----- reading: declarations -----

  /** Comma-separated constants up to a closing brace, and what follows it. */
  function Elements(ts: seq<Token>): Option<(seq<nat>, seq<Token>)>
    decreases |ts|
  {
    if ts == [] then None
    else if ts[0] == Punct('}') then Some(([], ts[1..]))
    else if ts[0].Punct? then None
    else
      var v := Constant(ts[0].text);
      if v == None || |ts| < 2 then None
      else if ts[1] == Punct('}') then Some(([v.value], ts[2..]))
      else if ts[1] != Punct(',') then None
      else
        var rest := Elements(ts[2..]);
        if rest == None then None else Some(([v.value] + rest.value.0, rest.value.1))
  }

  datatype Header = Header(name: string, bytes: seq<nat>, length: nat)

  const CHAR_DECL: seq<Token> := [Word("const"), Word("unsigned"), Word("char")]
  const INT_DECL: seq<Token> := [Word("const"), Word("unsigned"), Word("int")]
  const OPEN: seq<Token> := [Punct('['), Punct(']'), Punct('='), Punct('{')]

  /** `const unsigned char NAME[] = { ... };` then `const unsigned int NAME_len = N;` */
  function ReadTokens(ts: seq<Token>): Option<Header> {
    if |ts| < 8 || ts[..3] != CHAR_DECL || !ts[3].Word? || ts[4..8] != OPEN then None
    else
      var name := ts[3].text;
      var e := Elements(ts[8..]);
      if e == None then None
      else
        var rest := e.value.1;
        if |rest| != 8 || rest[0] != Punct(';') || rest[1..4] != INT_DECL
           || rest[4] != Word(name + "_len") || rest[5] != Punct('=') || !rest[6].Word? || rest[7] != Punct(';')
        then None
        else
          var n := Constant(rest[6].text);
          if n == None then None else Some(Header(name, e.value.0, n.value))
  }

  function Read(text: string): Option<Header> {
    ReadTokens(Lex(text))
  }

  // ----- lexing what is printed -----

  /** Text that does not continue a word. */
  predicate EndsWord(s: string) {
    s == [] || !IsWordChar(s[0])
  }

  lemma {:induction false} WordLengthOf(w: string, rest: string)
    requires (forall i :: 0 <= i < |w| ==> IsWordChar(w[i])) && EndsWord(rest)
    ensures WordLength(w + rest) == |w|
  {
    if w == [] {
      assert w + rest == rest;
    } else {
      assert (w + rest)[1..] == w[1..] + rest;
      WordLengthOf(w[1..], rest);
    }
  }

  lemma LexWord(w: string, rest: string)
    requires IsWord(w) && EndsWord(rest)
    ensures Lex(w + rest) == [Word(w)] + Lex(rest)
  {
    WordLengthOf(w, rest);
    var s := w + rest;
    assert s[0] == w[0] && s[..|w|] == w && s[|w|..] == rest;
  }

  lemma LexSpace(rest: string)
    ensures Lex([' '] + rest) == Lex(rest) && Lex(['\n'] + rest) == Lex(rest)
  {
  }

  lemma LexPunct(c: char, rest: string)
    requires !IsSpace(c) && !IsWordChar(c)
    ensures Lex([c] + rest) == [Punct(c)] + Lex(rest)
  {
  }

  lemma LexWordSpace(w: string, rest: string)
    requires IsWord(w)
    ensures Lex(w + ([' '] + rest)) == [Word(w)] + Lex(rest)
  {
    LexSpace(rest);
    LexWord(w, [' '] + rest);
  }

  lemma LexThreeWords(a: string, b: string, c: string, rest: string)
    requires IsWord(a) && IsWord(b) && IsWord(c)
    ensures Lex(a + ([' '] + (b + ([' '] + (c + ([' '] + rest)))))) == [Word(a), Word(b), Word(c)] + Lex(rest)
  {
    var rc := c + ([' '] + rest);
    var rb := b + ([' '] + rc);
    LexWordSpace(c, rest);
    LexWordSpace(b, rc);
    LexWordSpace(a, rb);
  }

  lemma DeclarationParts(kind: string, rest: string)
    ensures "const unsigned " + kind + " " + rest == "const" + ([' '] + ("unsigned" + ([' '] + (kind + ([' '] + rest)))))
  {
  }

  /** `const unsigned TYPE ` before a declared name. */
  lemma LexDeclaration(kind: string, rest: string)
    requires IsWord(kind)
    ensures Lex("const unsigned " + kind + " " + rest) == [Word("const"), Word("unsigned"), Word(kind)] + Lex(rest)
  {
    LexThreeWords("const", "unsigned", kind, rest);
    DeclarationParts(kind, rest);
  }

  function OpenText(style: Style): string {
    match style
    case Linear => "[] = {"
    case Mcc => "[]={ "
    case Sine => "[] = {"
  }

  lemma LexSpacedPunct(c: char, rest: string)
    requires !IsSpace(c) && !IsWordChar(c)
    ensures Lex([' '] + ([c] + rest)) == [Punct(c)] + Lex(rest)
  {
  }

  lemma LexTwo(c: char, d: char, rest: string)
    requires !IsSpace(c) && !IsWordChar(c) && !IsSpace(d) && !IsWordChar(d)
    ensures Lex([' '] + ([c] + ([' '] + ([d] + rest)))) == [Punct(c), Punct(d)] + Lex(rest)
    ensures Lex([c] + ([d] + ([' '] + rest))) == [Punct(c), Punct(d)] + Lex(rest)
  {
    LexSpacedPunct(d, rest);
    LexSpacedPunct(c, [' '] + ([d] + rest));
    LexSpace(rest);
    LexPunct(d, [' '] + rest);
    LexPunct(c, [d] + ([' '] + rest));
  }

  lemma OpenParts(rest: string)
    ensures "[]={ " + rest == "[]" + (['='] + (['{'] + ([' '] + rest)))
    ensures "[] = {" + rest == "[]" + ([' '] + (['='] + ([' '] + (['{'] + rest))))
  {
  }

  lemma LexOpen(style: Style, rest: string)
    ensures Lex(OpenText(style) + rest) == OPEN + Lex(rest)
  {
    OpenParts(rest);
    LexTwo('=', '{', rest);
    LexBrackets(if style == Mcc then ['='] + (['{'] + ([' '] + rest))
                else [' '] + (['='] + ([' '] + (['{'] + rest))));
  }

  lemma LexBrackets(rest: string)
    ensures Lex("[]" + rest) == [Punct('['), Punct(']')] + Lex(rest)
  {
  }

  function SepText(style: Style): string {
    if style == Linear then ", " else ","
  }

  lemma LexSep(style: Style, rest: string)
    ensures Lex(SepText(style) + rest) == [Punct(',')] + Lex(rest)
  {
  }

  lemma HexDigitIs(d: int)
    requires 0 <= d < 16
    ensures HexDigit(d) == "0123456789abcdef"[d]
  {
  }

  /** Two lower-case hexadecimal digits after 0x. */
  lemma HexByteIs(b: Byte)
    ensures HexByte(b) == ['0', 'x', "0123456789abcdef"[b / 16], "0123456789abcdef"[b % 16]]
  {
    HexDigitIs(b / 16);
    HexDigitIs(b % 16);
  }

  lemma HexByteIsWord(b: Byte)
    ensures IsWord(HexByte(b)) && |HexByte(b)| == 4
  {
  }

  /** The tokens of the list and its closing brace. */
  function ListTokens(bytes: seq<Byte>): seq<Token> {
    if bytes == [] then [Punct('}')]
    else if |bytes| == 1 then [Word(HexByte(bytes[0])), Punct('}')]
    else [Word(HexByte(bytes[0])), Punct(',')] + ListTokens(bytes[1..])
  }

  function ListText(style: Style, bytes: seq<Byte>, rest: string): string {
    Join(SepText(style), HexBytes(bytes)) + ['}'] + rest
  }

  lemma ListTextCons(style: Style, bytes: seq<Byte>, rest: string)
    requires bytes != []
    ensures ListText(style, bytes, rest) == HexByte(bytes[0])
              + (if |bytes| == 1 then ['}'] + rest else SepText(style) + ListText(style, bytes[1..], rest))
  {
    var parts := HexBytes(bytes);
    assert parts[1..] == HexBytes(bytes[1..]);
    if |bytes| > 1 {
      JoinParts(parts[0], SepText(style), Join(SepText(style), parts[1..]), rest);
    }
  }

  lemma JoinParts(first: string, sep: string, more: string, rest: string)
    ensures first + sep + more + ['}'] + rest == first + (sep + (more + ['}'] + rest))
  {
  }

  lemma {:induction false} LexList(style: Style, bytes: seq<Byte>, rest: string)
    ensures Lex(ListText(style, bytes, rest)) == ListTokens(bytes) + Lex(rest)
    decreases |bytes|
  {
    hide Lex, HexByte, ListText;
    LexPunct('}', rest);
    if bytes == [] {
      EmptyList(style, rest);
    } else {
      HexByteIsWord(bytes[0]);
      ListTextCons(style, bytes, rest);
      if |bytes| == 1 {
        LexWord(HexByte(bytes[0]), ['}'] + rest);
      } else {
        var more := ListText(style, bytes[1..], rest);
        LexList(style, bytes[1..], rest);
        LexSep(style, more);
        SepEndsWord(style, more);
        LexWord(HexByte(bytes[0]), SepText(style) + more);
      }
    }
  }

  lemma SepEndsWord(style: Style, rest: string)
    ensures EndsWord(SepText(style) + rest)
  {
  }

  lemma EmptyList(style: Style, rest: string)
    ensures ListText(style, [], rest) == ['}'] + rest
  {
    assert HexBytes([]) == [];
  }

  lemma LexEnd(rest: string)
    ensures Lex(";\n" + rest) == [Punct(';')] + Lex(rest)
  {
  }

  function ArrayLine(style: Style, name: string, bytes: seq<Byte>): string {
    "const unsigned char " + name + OpenText(style) + Join(SepText(style), HexBytes(bytes)) + "};\n"
  }

  lemma LexArrayLine(style: Style, name: string, bytes: seq<Byte>, rest: string)
    requires IsWord(name)
    ensures Lex(ArrayLine(style, name, bytes) + rest)
         == CHAR_DECL + ([Word(name)] + (OPEN + (ListTokens(bytes) + ([Punct(';')] + Lex(rest)))))
  {
    var end := ";\n" + rest;
    var list := ListText(style, bytes, end);
    LexEnd(rest);
    LexList(style, bytes, end);
    LexOpen(style, list);
    LexWord(name, OpenText(style) + list);
    LexDeclaration("char", name + (OpenText(style) + list));
    ArrayLineParts(style, name, Join(SepText(style), HexBytes(bytes)), rest);
  }

  lemma ArrayLineParts(style: Style, name: string, list: string, rest: string)
    ensures "const unsigned char " + name + OpenText(style) + list + "};\n" + rest
         == "const unsigned " + "char" + " " + (name + (OpenText(style) + (list + ['}'] + (";\n" + rest))))
  {
  }

  function AssignText(style: Style): string {
    if style == Mcc then "=" else " = "
  }

  lemma LexAssign(style: Style, rest: string)
    ensures Lex(AssignText(style) + rest) == [Punct('=')] + Lex(rest)
    ensures EndsWord(AssignText(style) + rest)
  {
    if style == Mcc {
      LexPunct('=', rest);
    } else {
      LexSpace(rest);
      LexSpacedPunct('=', [' '] + rest);
      assert " = " + rest == [' '] + (['='] + ([' '] + rest));
    }
  }

  function LengthLine(style: Style, name: string, n: nat): string {
    "const unsigned int " + name + "_len" + AssignText(style) + Decimal(n) + ";\n"
  }

  lemma {:induction false} DecimalIsWord(n: nat)
    ensures IsWord(Decimal(n))
  {
    if n >= 10 {
      DecimalIsWord(n / 10);
    }
  }

  lemma LexNumber(n: nat)
    ensures Lex(Decimal(n) + ";\n") == [Word(Decimal(n))] + [Punct(';')]
  {
    LexEnd([]);
    assert ";\n" + [] == ";\n";
    DecimalIsWord(n);
    LexWord(Decimal(n), ";\n");
  }

  lemma LexLengthLine(style: Style, name: string, n: nat)
    requires IsWord(name)
    ensures Lex(LengthLine(style, name, n))
         == INT_DECL + ([Word(name + "_len")] + ([Punct('=')] + ([Word(Decimal(n))] + [Punct(';')])))
  {
    var number := Decimal(n) + ";\n";
    LexNumber(n);
    LexAssign(style, number);
    LexWord(name + "_len", AssignText(style) + number);
    LexDeclaration("int", (name + "_len") + (AssignText(style) + number));
    LengthLineParts(name, AssignText(style), Decimal(n));
  }

  lemma LengthLineParts(name: string, assign: string, number: string)
    ensures "const unsigned int " + name + "_len" + assign + number + ";\n"
         == "const unsigned " + "int" + " " + ((name + "_len") + (assign + (number + ";\n")))
  {
  }

  /** The tokens of a header, whatever the style. */
  function HeaderTokens(name: string, bytes: seq<Byte>): seq<Token> {
    CHAR_DECL + ([Word(name)] + (OPEN + (ListTokens(bytes) + ([Punct(';')]
    + (INT_DECL + ([Word(name + "_len")] + ([Punct('=')] + ([Word(Decimal(|bytes|))] + [Punct(';')]))))))))
  }

  lemma PrintIsTwoLines(style: Style, name: string, bytes: seq<Byte>)
    ensures Print(style, name, bytes) == ArrayLine(style, name, bytes) + LengthLine(style, name, |bytes|)
  {
    var list, n := Join(SepText(style), HexBytes(bytes)), Decimal(|bytes|);
    assert "_len = " == "_len" + " = " && "_len=" == "_len" + "=";
    assert "const unsigned int " + name + "_len" + AssignText(style) + n + ";\n"
        == "const unsigned int " + name + ("_len" + AssignText(style)) + n + ";\n";
    TwoLines("const unsigned char " + name + OpenText(style) + list + "};\n",
             "const unsigned int ", name, "_len" + AssignText(style), n, ";\n");
  }

  lemma TwoLines(line: string, a: string, b: string, c: string, d: string, e: string)
    ensures line + a + b + c + d + e == line + (a + b + c + d + e)
  {
  }

  /** Element i of a printed list stands at a fixed place, with the separator between it and the
      next one, and nothing else is in the list. */
  ghost predicate ListLayout(list: string, sep: string, bytes: seq<Byte>) {
    && |list| == (if bytes == [] then 0 else (4 + |sep|) * |bytes| - |sep|)
    && forall i :: 0 <= i < |bytes| ==> ElementAt(list, sep, bytes, i)
  }

  ghost predicate ElementAt(list: string, sep: string, bytes: seq<Byte>, i: nat)
    requires i < |bytes|
  {
    var at := (4 + |sep|) * i;
    && HexByte(bytes[i]) <= Drop(list, at)
    && (i + 1 < |bytes| ==> sep <= Drop(list, at + 4))
  }

  function Drop(s: string, n: nat): string {
    if n <= |s| then s[n..] else []
  }

  lemma PieceShifts(front: string, s: string, n: nat)
    ensures Drop(front + s, |front| + n) == Drop(s, n)
  {
  }

  lemma TimesLess(w: nat, i: nat)
    requires i > 0
    ensures w * i == w + w * (i - 1)
  {
  }

  lemma ElementShifts(front: string, list: string, sep: string, bytes: seq<Byte>, i: nat)
    requires |front| == 4 + |sep| && 0 < i < |bytes| && ElementAt(list, sep, bytes[1..], i - 1)
    ensures ElementAt(front + list, sep, bytes, i)
  {
    hide Drop, HexByte;
    var at := (4 + |sep|) * (i - 1);
    TimesLess(4 + |sep|, i);
    PieceShifts(front, list, at);
    PieceShifts(front, list, at + 4);
    assert bytes[1..][i - 1] == bytes[i];
  }

  lemma FirstElement(list: string, sep: string, bytes: seq<Byte>)
    requires |bytes| > 1
    ensures ElementAt(HexByte(bytes[0]) + sep + list, sep, bytes, 0)
  {
    HexByteIsWord(bytes[0]);
    var whole := HexByte(bytes[0]) + sep + list;
    assert (4 + |sep|) * 0 == 0;
    assert Drop(whole, 0) == whole && Drop(whole, 4) == sep + list;
  }

  lemma LayoutCons(list: string, sep: string, bytes: seq<Byte>)
    requires |bytes| > 1 && ListLayout(list, sep, bytes[1..])
    ensures ListLayout(HexByte(bytes[0]) + sep + list, sep, bytes)
  {
    hide ElementAt;
    HexByteIsWord(bytes[0]);
    var front := HexByte(bytes[0]) + sep;
    FirstElement(list, sep, bytes);
    forall i | 0 <= i < |bytes| ensures ElementAt(front + list, sep, bytes, i) {
      if i > 0 {
        ElementShifts(front, list, sep, bytes, i);
      }
    }
    TimesLess(4 + |sep|, |bytes|);
  }

  lemma LayoutOne(sep: string, b: Byte)
    ensures ListLayout(HexByte(b), sep, [b])
  {
    HexByteIsWord(b);
    assert (4 + |sep|) * 0 == 0 && (4 + |sep|) * 1 == 4 + |sep|;
    assert Drop(HexByte(b), 0) == HexByte(b);
  }

  lemma {:induction false} JoinLayout(sep: string, bytes: seq<Byte>)
    ensures ListLayout(Join(sep, HexBytes(bytes)), sep, bytes)
    decreases |bytes|
  {
    hide ListLayout, HexByte;
    if bytes == [] {
      assert HexBytes(bytes) == [];
      EmptyLayout(sep);
    } else if |bytes| == 1 {
      LayoutOne(sep, bytes[0]);
      assert bytes == [bytes[0]];
    } else {
      JoinLayout(sep, bytes[1..]);
      assert HexBytes(bytes)[1..] == HexBytes(bytes[1..]);
      LayoutCons(Join(sep, HexBytes(bytes[1..])), sep, bytes);
    }
  }

  lemma EmptyLayout(sep: string)
    ensures ListLayout([], sep, [])
  {
  }

  /** A numeral without a leading zero. */
  ghost predicate IsNumeral(w: string) {
    && w != [] && (forall i :: 0 <= i < |w| ==> '0' <= w[i] <= '9')
    && (|w| > 1 ==> w[0] != '0')
  }

  lemma {:induction false} DecimalIsNumeral(n: nat)
    ensures IsNumeral(Decimal(n))
    ensures n > 0 ==> Decimal(n)[0] != '0'
  {
    if n >= 10 {
      DecimalIsNumeral(n / 10);
    }
  }

  /** The texts the three programs write, around a list and a numeral. */
  lemma PrintedText(name: string, bytes: seq<Byte>) returns (spaced: string, tight: string, n: string)
    ensures ListLayout(spaced, ", ", bytes) && ListLayout(tight, ",", bytes)
    ensures IsNumeral(n) && Constant(n) == Some(|bytes|)
    ensures Print(Linear, name, bytes)
         == "const unsigned char " + name + "[] = {" + spaced + "};\n"
            + "const unsigned int " + name + "_len = " + n + ";\n"
    ensures Print(Mcc, name, bytes)
         == "const unsigned char " + name + "[]={ " + tight + "};\n"
            + "const unsigned int " + name + "_len=" + n + ";\n"
    ensures Print(Sine, name, bytes)
         == "const unsigned char " + name + "[] = {" + tight + "};\n"
            + "const unsigned int " + name + "_len = " + n + ";\n"
  {
    spaced, tight := Join(", ", HexBytes(bytes)), Join(",", HexBytes(bytes));
    n := Decimal(|bytes|);
    JoinLayout(", ", bytes);
    JoinLayout(",", bytes);
    DecimalIsNumeral(|bytes|);
    DecimalValue(|bytes|);
  }

  /** All three styles print the same C. */
  lemma StylesAgree(style: Style, name: string, bytes: seq<Byte>)
    requires IsWord(name)
    ensures Lex(Print(style, name, bytes)) == HeaderTokens(name, bytes)
  {
    PrintIsTwoLines(style, name, bytes);
    LexArrayLine(style, name, bytes, LengthLine(style, name, |bytes|));
    LexLengthLine(style, name, |bytes|);
  }

  // ----- reading it back -----

  lemma HexDigitValue(d: int)
    requires 0 <= d < 16
    ensures DigitValue(HexDigit(d)) == d
  {
  }

  lemma HexByteValue(b: Byte)
    ensures Constant(HexByte(b)) == Some(b)
  {
    var w := HexByte(b);
    var hi, lo := HexDigit(b / 16), HexDigit(b % 16);
    HexDigitValue(b / 16);
    HexDigitValue(b % 16);
    assert w[2..] == [hi, lo];
    assert [hi, lo][..1] == [hi] && [hi][..0] == [];
    assert Digits(16, [hi]) == Some(b / 16);
    assert Digits(16, [hi, lo]) == Some(b / 16 * 16 + b % 16);
  }

  lemma {:induction false} DecimalDigits(n: nat)
    ensures Digits(10, Decimal(n)) == Some(n)
    ensures n > 0 ==> Decimal(n)[0] != '0'
  {
    var w := Decimal(n);
    var c := (n % 10 + '0' as int) as char;
    assert DigitValue(c) == n % 10;
    if n < 10 {
      assert w == [c] && w[..0] == [];
    } else {
      DecimalDigits(n / 10);
      assert w[..|w| - 1] == Decimal(n / 10);
    }
  }

  lemma DecimalValue(n: nat)
    ensures Constant(Decimal(n)) == Some(n)
  {
    DecimalDigits(n);
    if n == 0 {
      assert Decimal(0) == ['0'] && ['0'][..0] == [];
    }
  }

  lemma {:induction false} ReadList(bytes: seq<Byte>, rest: seq<Token>)
    ensures Elements(ListTokens(bytes) + rest) == Some((bytes, rest))
    decreases |bytes|
  {
    var ts := ListTokens(bytes) + rest;
    if bytes == [] {
      assert ts[1..] == rest;
    } else {
      HexByteValue(bytes[0]);
      if |bytes| == 1 {
        assert ts[2..] == rest;
        assert bytes == [bytes[0]];
      } else {
        assert ts[2..] == ListTokens(bytes[1..]) + rest;
        ReadList(bytes[1..], rest);
        assert bytes == [bytes[0]] + bytes[1..];
      }
    }
  }

  /** What follows the list. */
  function RestTokens(name: string, n: nat): seq<Token> {
    [Punct(';')] + (INT_DECL + ([Word(name + "_len")] + ([Punct('=')] + ([Word(Decimal(n))] + [Punct(';')]))))
  }

  lemma RestShape(name: string, n: nat)
    ensures var rest := RestTokens(name, n);
            && |rest| == 8 && rest[0] == Punct(';') && rest[1..4] == INT_DECL
            && rest[4] == Word(name + "_len") && rest[5] == Punct('=')
            && rest[6] == Word(Decimal(n)) && rest[7] == Punct(';')
  {
  }

  lemma PartsOf<T>(a: seq<T>, x: T, b: seq<T>, rest: seq<T>)
    requires |a| == 3 && |b| == 4
    ensures var ts := a + ([x] + (b + rest));
            |ts| >= 8 && ts[..3] == a && ts[3] == x && ts[4..8] == b && ts[8..] == rest
  {
  }

  lemma HeaderShape(name: string, bytes: seq<Byte>)
    ensures var ts := HeaderTokens(name, bytes);
            && |ts| >= 8 && ts[..3] == CHAR_DECL && ts[3] == Word(name) && ts[4..8] == OPEN
            && ts[8..] == ListTokens(bytes) + RestTokens(name, |bytes|)
  {
    PartsOf(CHAR_DECL, Word(name), OPEN, ListTokens(bytes) + RestTokens(name, |bytes|));
  }

  lemma ReadTokensOf(name: string, bytes: seq<Byte>)
    ensures ReadTokens(HeaderTokens(name, bytes)) == Some(Header(name, bytes, |bytes|))
  {
    HeaderShape(name, bytes);
    ReadList(bytes, RestTokens(name, |bytes|));
    RestShape(name, |bytes|);
    DecimalValue(|bytes|);
  }

  /** For every byte sequence and every style, reading the printed header gives back the name,
      the bytes and their number. */
  lemma RoundTrip(style: Style, name: string, bytes: seq<Byte>)
    requires IsWord(name)
    ensures Read(Print(style, name, bytes)) == Some(Header(name, bytes, |bytes|))
  {
    StylesAgree(style, name, bytes);
    ReadTokensOf(name, bytes);
  }

  /** So no two different arrays print alike, in any two styles. */
  lemma PrintInjective(s1: Style, n1: string, b1: seq<Byte>, s2: Style, n2: string, b2: seq<Byte>)
    requires IsWord(n1) && IsWord(n2)
    requires Print(s1, n1, b1) == Print(s2, n2, b2)
    ensures n1 == n2 && b1 == b2
  {
    RoundTrip(s1, n1, b1);
    RoundTrip(s2, n2, b2);
  }
}
