/** The companion's JSON: writing strings, numbers and events, and reading them back by the grammar of RFC 8259. A char
    stands for a byte of UTF-8. */
module Json {
  import opened Common

  // ---- Writing ----

  function HexDigit(n: nat): char
    requires n < 16
  {
    if n < 10 then ('0' as int + n) as char else ('a' as int + (n - 10)) as char
  }

  function Hex4(n: nat): string
    requires n < 0x10000
  {
    [HexDigit(n / 16 / 16 / 16), HexDigit(n / 16 / 16 % 16), HexDigit(n / 16 % 16), HexDigit(n % 16)]
  }

  function Escape(c: char): string {
    if c == '"' then "\\\""
    else if c == '\\' then "\\\\"
    else if c == '\n' then "\\n"
    else if c == '\r' then "\\r"
    else if c == '\t' then "\\t"
    else if c < ' ' || c == '<' then "\\u" + Hex4(c as int)
    else [c]
  }

  function EscapeAll(s: string): string {
    if s == "" then "" else Escape(s[0]) + EscapeAll(s[1..])
  }

  predicate NulFree(s: string) {
    '\0' !in s
  }

  /** A C string ends at its first NUL. */
  function UpToNul(s: string): (p: string)
    ensures p <= s && NulFree(p) && (|p| == |s| || s[|p|] == '\0')
  {
    if NulFree(s) then s else UpToNul(s[..|s| - 1])
  }

  function Quoted(s: string): string {
    "\"" + EscapeAll(UpToNul(s)) + "\""
  }

  lemma Concat(a: string, b: string, c: string)
    ensures (a + b) + c == a + (b + c)
  {
  }

  method JsonString(value: string) returns (out: string)
    ensures out == Quoted(value)
  {
    ghost var text := UpToNul(value);
    out := "\"";
    var p := 0;
    while p < |value| && value[p] != '\0'
      invariant 0 <= p <= |text|
      invariant out == "\"" + EscapeAll(text[..p])
    {
      assert value[p] == text[p] && text[..p + 1] == text[..p] + [text[p]];
      EscapeLast(text[..p], text[p]);
      var more := EscapeByte(value[p]);
      Concat("\"", EscapeAll(text[..p]), more);
      out := out + more;
      p := p + 1;
    }
    assert text[..p] == text;
    out := out + "\"";
  }

  /** The cases of the loop. */
  method EscapeByte(c: char) returns (out: string)
    ensures out == Escape(c)
  {
    match c
    case '"' => out := "\\\"";
    case '\\' => out := "\\\\";
    case '\n' => out := "\\n";
    case '\r' => out := "\\r";
    case '\t' => out := "\\t";
    case _ =>
      if c < ' ' || c == '<' {
        out := "\\u" + Hex4(c as int);
      } else {
        out := [c];
      }
  }

  lemma {:induction false} EscapeLast(s: string, c: char)
    ensures EscapeAll(s + [c]) == EscapeAll(s) + Escape(c)
  {
    if s == "" {
      assert ([c])[1..] == "";
    } else {
      EscapeLast(s[1..], c);
      assert (s + [c])[1..] == s[1..] + [c];
      Concat(Escape(s[0]), EscapeAll(s[1..]), Escape(c));
    }
  }

  // ---- Reading strings (section 7) ----

  function HexValue(c: char): Option<nat> {
    if '0' <= c <= '9' then Some(c as int - '0' as int)
    else if 'a' <= c <= 'f' then Some(c as int - 'a' as int + 10)
    else if 'A' <= c <= 'F' then Some(c as int - 'A' as int + 10)
    else None
  }

  /** Four hexadecimal digits. */
  function ReadUnit(s: string): (u: Option<nat>)
    ensures u.Some? ==> |s| >= 4
  {
    if |s| < 4 || HexValue(s[0]).None? || HexValue(s[1]).None? || HexValue(s[2]).None? || HexValue(s[3]).None? then None
    else
      Some(HexValue(s[0]).value * 4096 + HexValue(s[1]).value * 256 + HexValue(s[2]).value * 16 + HexValue(s[3]).value)
  }

  /** The bytes of a code point below 0x110000. */
  function Utf8(point: nat): string
    requires point < 0x110000
  {
    if point < 0x80 then [point as char]
    else if point < 0x800 then [(0xc0 + point / 64) as char, (0x80 + point % 64) as char]
    else if point < 0x10000 then
      [(0xe0 + point / 4096) as char, (0x80 + point / 64 % 64) as char, (0x80 + point % 64) as char]
    else [(0xf0 + point / 0x40000) as char, (0x80 + point / 4096 % 64) as char,
          (0x80 + point / 64 % 64) as char, (0x80 + point % 64) as char]
  }

  datatype Read<T> = Read(value: T, rest: string)

  /** The escape of one code unit or a surrogate pair, after its "\u". A lone surrogate has no bytes. */
  function ReadUnicode(s: string): (r: Option<Read<string>>)
    ensures r.Some? ==> |r.value.rest| < |s|
  {
    var u := ReadUnit(s);
    if u.None? then None
    else if u.value < 0xd800 || 0xe000 <= u.value < 0x10000 then Some(Read(Utf8(u.value), s[4..]))
    else if u.value < 0xdc00 && |s| >= 10 && s[4] == '\\' && s[5] == 'u' then
      var low := ReadUnit(s[6..]);
      if low.Some? && 0xdc00 <= low.value < 0xe000
      then Some(Read(Utf8(0x10000 + (u.value - 0xd800) * 1024 + (low.value - 0xdc00)), s[10..]))
      else None
    else None
  }

  function ReadEscape(s: string): (r: Option<Read<string>>)
    ensures r.Some? ==> |r.value.rest| < |s|
  {
    if s == "" then None
    else
      match s[0]
      case '"' => Some(Read("\"", s[1..]))
      case '\\' => Some(Read("\\", s[1..]))
      case '/' => Some(Read("/", s[1..]))
      case 'b' => Some(Read([8 as char], s[1..]))
      case 'f' => Some(Read([12 as char], s[1..]))
      case 'n' => Some(Read("\n", s[1..]))
      case 'r' => Some(Read("\r", s[1..]))
      case 't' => Some(Read("\t", s[1..]))
      case 'u' => ReadUnicode(s[1..])
      case _ => None
  }

  /** The first character of a string's rest, with its escape. */
  function ReadFirst(s: string): (r: Option<Read<string>>)
    requires s != ""
    ensures r.Some? ==> |r.value.rest| < |s|
  {
    if s[0] == '\\' then ReadEscape(s[1..]) else Some(Read([s[0]], s[1..]))
  }

  /** The rest of a string after its opening quote. */
  function ReadChars(s: string): (r: Option<Read<string>>)
    ensures r.Some? ==> |r.value.rest| < |s|
    decreases |s|
  {
    if s == "" || s[0] < ' ' then None
    else if s[0] == '"' then Some(Read("", s[1..]))
    else
      var first := ReadFirst(s);
      if first.None? then None
      else
        match ReadChars(first.value.rest)
        case None => None
        case Some(more) => Some(Read(first.value.value + more.value, more.rest))
  }

  function ReadString(s: string): (r: Option<Read<string>>)
    ensures r.Some? ==> |r.value.rest| < |s|
  {
    if s == "" || s[0] != '"' then None else ReadChars(s[1..])
  }

  lemma HexRoundTrip(n: nat)
    requires n < 16
    ensures HexValue(HexDigit(n)) == Some(n)
  {
  }

  lemma UnitOfDigits(a: nat, b: nat, c: nat, d: nat, rest: string)
    requires a < 16 && b < 16 && c < 16 && d < 16
    ensures ReadUnit([HexDigit(a), HexDigit(b), HexDigit(c), HexDigit(d)] + rest)
         == Some(a * 4096 + b * 256 + c * 16 + d)
  {
    HexRoundTrip(a);
    HexRoundTrip(b);
    HexRoundTrip(c);
    HexRoundTrip(d);
  }

  lemma Hex4RoundTrip(n: nat, rest: string)
    requires n < 0x10000
    ensures ReadUnit(Hex4(n) + rest) == Some(n)
  {
    UnitOfDigits(n / 16 / 16 / 16, n / 16 / 16 % 16, n / 16 % 16, n % 16, rest);
    DigitsOf(n);
  }

  lemma DigitsOf(n: nat)
    requires n < 0x10000
    ensures n / 16 / 16 / 16 < 16
    ensures n / 16 / 16 / 16 * 4096 + n / 16 / 16 % 16 * 256 + n / 16 % 16 * 16 + n % 16 == n
  {
  }

  lemma UnicodeIsRead(c: char, rest: string)
    requires '\0' < c && (c < ' ' || c == '<')
    ensures ReadFirst("\\u" + Hex4(c as int) + rest) == Some(Read([c], rest))
  {
    var n := c as int;
    var digits := Hex4(n) + rest;
    Hex4RoundTrip(n, rest);
    assert ("\\u" + Hex4(n) + rest)[1..] == "u" + digits && ("u" + digits)[1..] == digits && digits[4..] == rest;
    assert Utf8(n) == [c];
  }

  lemma NamedIsRead(name: char, c: char, rest: string)
    requires ReadEscape([name] + rest) == Some(Read([c], ([name] + rest)[1..]))
    ensures ReadFirst(['\\', name] + rest) == Some(Read([c], rest))
  {
    assert (['\\', name] + rest)[1..] == [name] + rest && ([name] + rest)[1..] == rest;
  }

  /** Each escape reads back as its character. */
  lemma EscapeIsRead(c: char, rest: string)
    requires c != '\0'
    ensures var s := Escape(c) + rest;
            s != "" && s[0] >= ' ' && s[0] != '"' && ReadFirst(s) == Some(Read([c], rest))
  {
    if c == '"' {
      NamedIsRead('"', c, rest);
    } else if c == '\\' {
      NamedIsRead('\\', c, rest);
    } else if c == '\n' {
      NamedIsRead('n', c, rest);
    } else if c == '\r' {
      NamedIsRead('r', c, rest);
    } else if c == '\t' {
      NamedIsRead('t', c, rest);
    } else if c < ' ' || c == '<' {
      UnicodeIsRead(c, rest);
    } else {
      assert ([c] + rest)[1..] == rest;
    }
  }

  lemma ReadOneMore(c: char, tail: string)
    requires c != '\0' && ReadChars(tail).Some?
    ensures ReadChars(Escape(c) + tail) == Some(Read([c] + ReadChars(tail).value.value, ReadChars(tail).value.rest))
  {
    EscapeIsRead(c, tail);
  }

  lemma {:induction false} CharsRoundTrip(s: string, rest: string)
    requires '\0' !in s
    ensures ReadChars(EscapeAll(s) + ("\"" + rest)) == Some(Read(s, rest))
  {
    if s == "" {
      assert EscapeAll(s) + ("\"" + rest) == "\"" + rest && ("\"" + rest)[1..] == rest;
    } else {
      var tail := EscapeAll(s[1..]) + ("\"" + rest);
      CharsRoundTrip(s[1..], rest);
      ReadOneMore(s[0], tail);
      Concat(Escape(s[0]), EscapeAll(s[1..]), "\"" + rest);
      assert [s[0]] + s[1..] == s;
    }
  }

  /** Reading a written string gives what comes before its first NUL, and consumes exactly what was written. */
  lemma StringRoundTrip(s: string, rest: string)
    ensures ReadString(Quoted(s) + rest) == Some(Read(UpToNul(s), rest))
  {
    var inner := EscapeAll(UpToNul(s));
    CharsRoundTrip(UpToNul(s), rest);
    Concat("\"" + inner, "\"", rest);
    Concat("\"", inner, "\"" + rest);
    assert ("\"" + (inner + ("\"" + rest)))[1..] == inner + ("\"" + rest);
  }

  /** So it gives the whole string exactly when that has no NUL. */
  lemma StringIsWhole(s: string)
    ensures ReadString(Quoted(s)) == Some(Read(s, "")) <==> '\0' !in s
  {
    StringRoundTrip(s, "");
    assert Quoted(s) + "" == Quoted(s);
  }

  /** What may stand inside a written string: no control character, and no bracket that could end a script element. */
  predicate Harmless(s: string) {
    forall i :: 0 <= i < |s| ==> s[i] >= ' ' && s[i] != '<'
  }

  lemma DigitIsHarmless(n: nat)
    requires n < 16
    ensures ' ' <= HexDigit(n) && HexDigit(n) != '<'
  {
  }

  lemma OneEscapeIsHarmless(c: char)
    ensures Harmless(Escape(c))
  {
    if c < ' ' || c == '<' {
      var n := c as int;
      DigitIsHarmless(n / 16 / 16 / 16);
      DigitIsHarmless(n / 16 / 16 % 16);
      DigitIsHarmless(n / 16 % 16);
      DigitIsHarmless(n % 16);
      assert Harmless(Hex4(n));
    }
  }

  lemma BothHarmless(a: string, b: string)
    requires Harmless(a) && Harmless(b)
    ensures Harmless(a + b)
  {
  }

  lemma {:induction false} EscapeIsHarmless(s: string)
    ensures Harmless(EscapeAll(s))
  {
    if s != "" {
      EscapeIsHarmless(s[1..]);
      OneEscapeIsHarmless(s[0]);
      BothHarmless(Escape(s[0]), EscapeAll(s[1..]));
    }
  }

  lemma QuotedIsHarmless(s: string)
    ensures Harmless(Quoted(s))
  {
    var inner := EscapeAll(UpToNul(s));
    EscapeIsHarmless(UpToNul(s));
    BothHarmless("\"", inner);
    BothHarmless("\"" + inner, "\"");
  }

  /** Whether the text ends in a backslash that escapes what comes next: in an odd number of them. */
  predicate Escaping(s: string) {
    s != "" && s[|s| - 1] == '\\' && !Escaping(s[..|s| - 1])
  }

  /** No quote in the text ends it: a backslash escapes each. */
  predicate QuotesEscaped(s: string) {
    forall i :: 0 <= i < |s| && s[i] == '"' ==> Escaping(s[..i])
  }

  /** Nor is a quote that comes next escaped. */
  predicate Closable(s: string) {
    QuotesEscaped(s) && !Escaping(s)
  }

  lemma LastOf(s: string, c: char)
    ensures Escaping(s + [c]) <==> c == '\\' && !Escaping(s)
    ensures QuotesEscaped(s) && (c == '"' ==> Escaping(s)) ==> QuotesEscaped(s + [c])
  {
    assert (s + [c])[..|s|] == s;
    assert forall i :: 0 <= i < |s| ==> (s + [c])[..i] == s[..i];
  }

  /** Any text may follow, if it has no quote and does not end in a backslash. */
  lemma {:induction false} PlainKeepsClosable(s: string, more: string)
    requires QuotesEscaped(s) && more != "" && '"' !in more && more[|more| - 1] != '\\'
    ensures Closable(s + more)
  {
    var init, last := more[..|more| - 1], more[|more| - 1];
    QuotesOfPlain(s, init);
    LastOf(s + init, last);
    assert s + more == (s + init) + [last];
  }

  lemma {:induction false} QuotesOfPlain(s: string, more: string)
    requires QuotesEscaped(s) && '"' !in more
    ensures QuotesEscaped(s + more)
  {
    if more == "" {
      assert s + more == s;
    } else {
      var init, last := more[..|more| - 1], more[|more| - 1];
      QuotesOfPlain(s, init);
      LastOf(s + init, last);
      assert s + more == (s + init) + [last];
    }
  }

  lemma DigitIsPlain(n: nat)
    requires n < 16
    ensures HexDigit(n) != '"' && HexDigit(n) != '\\'
  {
  }

  lemma CodeIsPlain(c: char)
    requires c < ' ' || c == '<'
    ensures var code := "\\u" + Hex4(c as int);
            '"' !in code && code[|code| - 1] != '\\'
  {
    var n := c as int;
    DigitIsPlain(n / 16 / 16 / 16);
    DigitIsPlain(n / 16 / 16 % 16);
    DigitIsPlain(n / 16 % 16);
    DigitIsPlain(n % 16);
    assert '"' !in Hex4(n);
  }

  lemma EscapeIsPlain(c: char)
    requires c != '"' && c != '\\'
    ensures var code := Escape(c);
            code != "" && '"' !in code && code[|code| - 1] != '\\'
  {
    if c < ' ' || c == '<' {
      if c != '\n' && c != '\r' && c != '\t' {
        CodeIsPlain(c);
      }
    }
  }

  lemma EscapedKeepsClosable(s: string, c: char)
    requires Closable(s) && (c == '"' || c == '\\')
    ensures Closable(s + ['\\', c])
  {
    var t := s + ['\\'];
    LastOf(s, '\\');
    ClosesEscape(t, c);
    assert s + ['\\', c] == t + [c];
  }

  lemma ClosesEscape(s: string, c: char)
    requires QuotesEscaped(s) && Escaping(s) && (c == '"' || c == '\\')
    ensures Closable(s + [c])
  {
    LastOf(s, c);
  }

  lemma EscapeKeepsClosable(s: string, c: char)
    requires Closable(s)
    ensures Closable(s + Escape(c))
  {
    if c == '"' || c == '\\' {
      EscapedKeepsClosable(s, c);
    } else {
      EscapeIsPlain(c);
      PlainKeepsClosable(s, Escape(c));
    }
  }

  lemma NextIsClosable(s: string, c: char)
    requires Closable(EscapeAll(s))
    ensures Closable(EscapeAll(s + [c]))
  {
    EscapeKeepsClosable(EscapeAll(s), c);
    EscapeLast(s, c);
  }

  /** What stands between the quotes of a written string has every quote escaped, and cannot escape the closing one. */
  lemma {:induction false} WrittenIsClosable(s: string)
    ensures Closable(EscapeAll(s))
  {
    if s != "" {
      var init, last := s[..|s| - 1], s[|s| - 1];
      WrittenIsClosable(init);
      NextIsClosable(init, last);
      assert s == init + [last];
    }
  }

  // ---- Whole numbers (section 6) ----

  predicate AllDigits(s: string) {
    forall i :: 0 <= i < |s| ==> '0' <= s[i] <= '9'
  }

  function Digits(n: nat): (s: string)
    ensures s != "" && AllDigits(s)
    ensures n != 0 ==> s[0] != '0'
    ensures n == 0 ==> s == "0"
  {
    if n < 10 then [('0' as int + n) as char] else Digits(n / 10) + [('0' as int + n % 10) as char]
  }

  function NumberText(n: int): string {
    if n < 0 then "-" + Digits(-n) else Digits(n)
  }

  /** How many digits a text starts with. */
  function DigitCount(s: string): (n: nat)
    ensures n <= |s|
  {
    if s == "" || !('0' <= s[0] <= '9') then 0 else 1 + DigitCount(s[1..])
  }

  function DigitValue(c: char): nat
    requires '0' <= c <= '9'
  {
    c as int - '0' as int
  }

  function DigitsValue(s: string): nat
    requires AllDigits(s)
  {
    if s == "" then 0 else DigitsValue(s[..|s| - 1]) * 10 + DigitValue(s[|s| - 1])
  }

  lemma {:induction false} DigitCountIs(s: string, n: nat)
    requires n <= |s| && AllDigits(s[..n])
    requires n == |s| || !('0' <= s[n] <= '9')
    ensures DigitCount(s) == n
  {
    if n != 0 {
      assert s[..n][0] == s[0] && s[1..][..n - 1] == s[..n][1..];
      DigitCountIs(s[1..], n - 1);
    }
  }

  lemma DigitsAreDigits(s: string)
    ensures AllDigits(s[..DigitCount(s)])
  {
    if s != "" && '0' <= s[0] <= '9' {
      DigitsAreDigits(s[1..]);
      assert s[..DigitCount(s)] == [s[0]] + s[1..][..DigitCount(s[1..])];
    }
  }

  /** A whole number: no leading zero, no fraction and no exponent. */
  function ReadNumber(s: string): (r: Option<Read<int>>)
    ensures r.Some? ==> |r.value.rest| < |s|
  {
    var negative := s != "" && s[0] == '-';
    var t := if negative then s[1..] else s;
    var n := DigitCount(t);
    DigitsAreDigits(t);
    if n == 0 || (n > 1 && t[0] == '0') || (n < |t| && t[n] in ".eE") then None
    else
      var value: int := DigitsValue(t[..n]);
      Some(Read(if negative then -value else value, t[n..]))
  }

  lemma {:induction false} DigitsRoundTrip(n: nat)
    ensures DigitsValue(Digits(n)) == n
  {
    if n >= 10 {
      DigitsRoundTrip(n / 10);
      assert Digits(n)[..|Digits(n)| - 1] == Digits(n / 10);
    } else {
      assert Digits(n)[..|Digits(n)| - 1] == "";
    }
  }

  /** A text that does not continue a number. */
  predicate EndsNumber(rest: string) {
    rest == "" || !(('0' <= rest[0] <= '9') || rest[0] in ".eE")
  }

  lemma DigitsAreRead(m: int, rest: string)
    requires 0 <= m && EndsNumber(rest)
    ensures var t := Digits(m) + rest; ReadNumber(t) == Some(Read(m, rest)) && t[0] != '-'
    ensures var t := Digits(m) + rest; ReadNumber("-" + t) == Some(Read(-m, rest))
  {
    var digits := Digits(m);
    var t := digits + rest;
    var n := |digits|;
    assert t[..n] == digits && t[n..] == rest;
    DigitsRoundTrip(m);
    DigitCountIs(t, n);
    assert m == 0 ==> n == 1;
    assert t[0] == digits[0];
    assert ("-" + t)[1..] == t;
  }

  lemma NumberRoundTrip(n: int, rest: string)
    requires EndsNumber(rest)
    ensures ReadNumber(NumberText(n) + rest) == Some(Read(n, rest))
  {
    if n < 0 {
      DigitsAreRead(-n, rest);
      Concat("-", Digits(-n), rest);
    } else {
      DigitsAreRead(n, rest);
    }
  }

  /** The numbers written in full: whole, and less than 10^15 from 0. */
  predicate Whole(v: real) {
    v == v.Floor as real && -1_000_000_000_000_000.0 < v < 1_000_000_000_000_000.0
  }

  /** `dtostr` is the library's text of any other number. */
  function JsonNumber(v: real, dtostr: real -> string): string {
    if Whole(v) then NumberText(v.Floor) else dtostr(v)
  }

  /** Every whole number less than 10^15 from 0 reads back, whatever the library's text of it is. */
  lemma WholeNumberRoundTrip(n: int, dtostr: real -> string, rest: string)
    requires -1_000_000_000_000_000 < n < 1_000_000_000_000_000 && EndsNumber(rest)
    ensures ReadNumber(JsonNumber(n as real, dtostr) + rest) == Some(Read(n, rest))
  {
    NumberRoundTrip(n, rest);
  }

  // ---- Objects (section 4) ----

  datatype Value = Text(s: string) | Number(n: int) | Flag(b: bool)

  datatype Member = Member(name: string, value: Value)

  function ValueText(v: Value): string {
    match v
    case Text(s) => Quoted(s)
    case Number(n) => NumberText(n)
    case Flag(b) => if b then "true" else "false"
  }

  function MemberText(m: Member): string {
    Quoted(m.name) + (":" + ValueText(m.value))
  }

  function Joined(texts: seq<string>): string {
    if texts == [] then "" else if |texts| == 1 then texts[0] else texts[0] + ("," + Joined(texts[1..]))
  }

  function TextOfEach<T>(text: T -> string, s: seq<T>): seq<string> {
    seq(|s|, i requires 0 <= i < |s| => text(s[i]))
  }

  function Texts(ms: seq<Member>): seq<string> {
    TextOfEach(MemberText, ms)
  }

  function MembersText(ms: seq<Member>): string {
    Joined(Texts(ms))
  }

  function ObjectText(ms: seq<Member>): string {
    "{" + MembersText(ms) + "}"
  }

  function SkipSpace(s: string): (r: string)
    ensures |r| <= |s|
  {
    if s != "" && s[0] in " \t\n\r" then SkipSpace(s[1..]) else s
  }

  /** A value that is no array or object. */
  function ReadValue(s: string): (r: Option<Read<Value>>)
    ensures r.Some? ==> |r.value.rest| < |s|
  {
    if s == "" then None
    else if s[0] == '"' then
      (match ReadString(s)
       case None => None
       case Some(r) => Some(Read(Text(r.value), r.rest)))
    else if "true" <= s then Some(Read(Flag(true), s[4..]))
    else if "false" <= s then Some(Read(Flag(false), s[5..]))
    else
      match ReadNumber(s)
      case None => None
      case Some(r) => Some(Read(Number(r.value), r.rest))
  }

  /** A name, a colon and a value, with the space around them. */
  function ReadMember(s: string): (r: Option<Read<Member>>)
    ensures r.Some? ==> |r.value.rest| < |s|
  {
    var name := ReadString(SkipSpace(s));
    if name.None? then None
    else
      var colon := SkipSpace(name.value.rest);
      if colon == "" || colon[0] != ':' then None
      else
        var value := ReadValue(SkipSpace(colon[1..]));
        if value.None? then None
        else Some(Read(Member(name.value.value, value.value.value), SkipSpace(value.value.rest)))
  }

  /** Members up to the closing brace. */
  function ReadMembers(s: string): (r: Option<Read<seq<Member>>>)
    decreases |s|
  {
    var first := ReadMember(s);
    if first.None? || first.value.rest == "" then None
    else
      var m, rest := first.value.value, first.value.rest;
      if rest[0] == '}' then Some(Read([m], rest[1..]))
      else if rest[0] != ',' then None
      else
        match ReadMembers(rest[1..])
        case None => None
        case Some(more) => Some(Read([m] + more.value, more.rest))
  }

  function ReadObject(s: string): Option<Read<seq<Member>>> {
    var t := SkipSpace(s);
    if t == "" || t[0] != '{' then None
    else
      var u := SkipSpace(t[1..]);
      if u != "" && u[0] == '}' then Some(Read([], u[1..])) else ReadMembers(t[1..])
  }

  /** A member as C strings can carry it. */
  function Cut(m: Member): Member {
    Member(UpToNul(m.name), if m.value.Text? then Text(UpToNul(m.value.s)) else m.value)
  }

  lemma FlagRoundTrip(b: bool, rest: string)
    ensures ReadValue(ValueText(Flag(b)) + rest) == Some(Read(Flag(b), rest))
  {
    var s := ValueText(Flag(b)) + rest;
    if b {
      assert s[..4] == "true" && s[4..] == rest;
    } else {
      assert s[0] == 'f' && s[..5] == "false" && s[5..] == rest;
    }
  }

  lemma NumberValueRoundTrip(n: int, rest: string)
    requires EndsNumber(rest)
    ensures ReadValue(NumberText(n) + rest) == Some(Read(Number(n), rest))
  {
    NumberRoundTrip(n, rest);
    var first := (NumberText(n) + rest)[0];
    assert first == NumberText(n)[0];
    assert first == '-' || '0' <= first <= '9';
  }

  lemma ValueRoundTrip(v: Value, rest: string)
    requires EndsNumber(rest)
    ensures ReadValue(ValueText(v) + rest) == Some(Read(if v.Text? then Text(UpToNul(v.s)) else v, rest))
  {
    match v
    case Text(t) => StringRoundTrip(t, rest);
    case Number(n) => NumberValueRoundTrip(n, rest);
    case Flag(b) => FlagRoundTrip(b, rest);
  }

  lemma ValueStart(v: Value, rest: string)
    ensures var s := ValueText(v) + rest; SkipSpace(s) == s
  {
    assert ValueText(v)[0] !in " \t\n\r";
  }

  /** After a value comes a comma or a brace. */
  predicate EndsValue(rest: string) {
    rest != "" && (rest[0] == ',' || rest[0] == '}')
  }

  lemma NameIsRead(name: string, rest: string)
    ensures var s := Quoted(name) + (":" + rest);
            SkipSpace(s) == s && ReadString(s) == Some(Read(UpToNul(name), ":" + rest)) && (":" + rest)[1..] == rest
  {
    StringRoundTrip(name, ":" + rest);
  }

  lemma MemberRoundTrip(m: Member, rest: string)
    requires EndsValue(rest)
    ensures ReadMember(MemberText(m) + rest) == Some(Read(Cut(m), rest))
  {
    var value := ValueText(m.value) + rest;
    ValueRoundTrip(m.value, rest);
    NameIsRead(m.name, value);
    Concat(":", ValueText(m.value), rest);
    Concat(Quoted(m.name), ":" + ValueText(m.value), rest);
    ValueStart(m.value, rest);
    assert SkipSpace(rest) == rest && SkipSpace(":" + value) == ":" + value;
  }

  function CutAll(ms: seq<Member>): seq<Member> {
    if ms == [] then [] else [Cut(ms[0])] + CutAll(ms[1..])
  }

  lemma OneMemberIsRead(m: Member, rest: string)
    ensures ReadMembers(MemberText(m) + ("}" + rest)) == Some(Read([Cut(m)], rest))
  {
    MemberRoundTrip(m, "}" + rest);
    assert ("}" + rest)[1..] == rest;
  }

  lemma FirstMemberIsRead(m: Member, tail: string)
    ensures ReadMembers(tail).Some? ==>
      var more := ReadMembers(tail).value;
      ReadMembers(MemberText(m) + ("," + tail)) == Some(Read([Cut(m)] + more.value, more.rest))
  {
    MemberRoundTrip(m, "," + tail);
    assert ("," + tail)[1..] == tail;
  }

  lemma FirstText(ms: seq<Member>)
    requires ms != []
    ensures MembersText(ms) == MemberText(ms[0]) + if |ms| == 1 then "" else "," + MembersText(ms[1..])
  {
    EachRest(MemberText, ms);
    var texts := Texts(ms);
    assert |texts| == |ms| && (|texts| == 1 ==> Joined(texts) == texts[0]);
  }

  lemma EachRest<T>(text: T -> string, s: seq<T>)
    requires s != []
    ensures TextOfEach(text, s)[1..] == TextOfEach(text, s[1..]) && TextOfEach(text, s)[0] == text(s[0])
  {
  }

  lemma EachMore<T>(text: T -> string, s: seq<T>, t: T)
    ensures TextOfEach(text, s + [t]) == TextOfEach(text, s) + [text(t)]
  {
  }

  lemma {:induction false} MembersRoundTrip(ms: seq<Member>, rest: string)
    requires ms != []
    ensures ReadMembers(MembersText(ms) + ("}" + rest)) == Some(Read(CutAll(ms), rest))
  {
    var m, others := ms[0], ms[1..];
    FirstText(ms);
    if others == [] {
      OneMemberIsRead(m, rest);
      assert MembersText(ms) == MemberText(m) && CutAll(ms) == [Cut(m)] + CutAll(others) == [Cut(m)];
    } else {
      MembersRoundTrip(others, rest);
      FirstMemberIsRead(m, MembersText(others) + ("}" + rest));
      SplitTail(MemberText(m), MembersText(others), "}" + rest);
    }
  }

  lemma SplitTail(a: string, b: string, c: string)
    ensures a + ("," + b) + c == a + ("," + (b + c))
  {
    Concat(",", b, c);
    Concat(a, "," + b, c);
  }

  lemma Opened(inner: string)
    requires inner != "" && inner[0] == '"'
    ensures ReadObject("{" + inner) == ReadMembers(inner)
  {
    assert ("{" + inner)[1..] == inner;
  }

  lemma EmptyIsRead(rest: string)
    ensures ReadObject("{" + ("}" + rest)) == Some(Read([], rest))
  {
    assert ("{" + ("}" + rest))[1..] == "}" + rest && ("}" + rest)[1..] == rest;
  }

  /** Every object written reads back as its members, and exactly it is consumed. */
  lemma ObjectRoundTrip(ms: seq<Member>, rest: string)
    ensures ReadObject(ObjectText(ms) + rest) == Some(Read(CutAll(ms), rest))
  {
    var inner := MembersText(ms) + ("}" + rest);
    Concat("{" + MembersText(ms), "}", rest);
    Concat("{", MembersText(ms), "}" + rest);
    if ms == [] {
      EmptyIsRead(rest);
      assert inner == "}" + rest;
    } else {
      MembersRoundTrip(ms, rest);
      FirstText(ms);
      assert MembersText(ms)[0] == MemberText(ms[0])[0] == '"';
      Opened(inner);
    }
  }

  // ---- Events ----

  /** The members every event starts with. */
  function Owner(id: string, generation: Option<int>): seq<Member> {
    if generation.None? then [Member("id", Text(id))]
    else [Member("id", Text(id))] + [Member("generation", Number(generation.value))]
  }

  function Head(id: string, generation: Option<int>, kind: string): seq<Member> {
    Owner(id, generation) + [Member("type", Text(kind))]
  }

  lemma {:induction false} JoinedMore(texts: seq<string>, t: string)
    requires texts != []
    ensures Joined(texts + [t]) == Joined(texts) + ("," + t)
  {
    var others := texts[1..];
    assert (texts + [t])[1..] == others + [t] && (texts + [t])[0] == texts[0];
    if others != [] {
      JoinedMore(others, t);
      Concat(",", Joined(others), "," + t);
      Concat(texts[0], "," + Joined(others), "," + t);
    } else {
      assert others + [t] == [t] && Joined([t]) == t;
    }
  }

  lemma OneMoreMember(ms: seq<Member>, m: Member)
    requires ms != []
    ensures MembersText(ms + [m]) == MembersText(ms) + ("," + MemberText(m))
  {
    EachMore(MemberText, ms, m);
    JoinedMore(Texts(ms), MemberText(m));
  }

  predicate Letters(s: string) {
    forall i :: 0 <= i < |s| ==> 'a' <= s[i] <= 'z'
  }

  /** Letters are written as they are. */
  lemma {:induction false} LettersAreKept(s: string)
    requires Letters(s)
    ensures EscapeAll(s) == s == UpToNul(s)
  {
    if s != "" {
      LettersAreKept(s[1..]);
      assert Escape(s[0]) == [s[0]] && [s[0]] + s[1..] == s;
    }
  }

  /** A member's name and colon in one literal. */
  lemma LeadOf(open: string, name: string, value: Value, lead: string)
    requires Letters(name) && lead == open + "\"" + name + "\":"
    ensures open + MemberText(Member(name, value)) == lead + ValueText(value)
  {
    LettersAreKept(name);
    var quoted := Quoted(name) + ":";
    assert "\"" + ":" == "\":";
    Concat("\"" + name, "\"", ":");
    assert quoted == "\"" + name + "\":";
    Concat(open, "\"" + name, "\":");
    Concat(open, "\"", name);
    assert open + quoted == lead;
    Concat(open, quoted, ValueText(value));
    Concat(Quoted(name), ":", ValueText(value));
  }

  /** Appending a member the way the events do. */
  lemma AppendMember(ms: seq<Member>, name: string, value: Value, lead: string)
    requires ms != [] && Letters(name) && lead == "," + "\"" + name + "\":"
    ensures "{" + MembersText(ms + [Member(name, value)]) == "{" + MembersText(ms) + lead + ValueText(value)
  {
    var m := Member(name, value);
    OneMoreMember(ms, m);
    LeadOf(",", name, value, lead);
    Concat("{", MembersText(ms), lead + ValueText(value));
    Concat("{" + MembersText(ms), lead, ValueText(value));
  }

  lemma FirstMember(name: string, value: Value, lead: string)
    requires Letters(name) && lead == "{" + "\"" + name + "\":"
    ensures "{" + MembersText([Member(name, value)]) == lead + ValueText(value)
  {
    assert Texts([Member(name, value)]) == [MemberText(Member(name, value))];
    LeadOf("{", name, value, lead);
  }

  lemma OwnerIsBuilt(id: string, generation: Option<int>)
    ensures "{" + MembersText(Owner(id, generation)) ==
      "{\"id\":" + Quoted(id) + if generation.Some? then ",\"generation\":" + NumberText(generation.value) else ""
  {
    FirstMember("id", Text(id), "{\"id\":");
    if generation.Some? {
      AppendMember([Member("id", Text(id))], "generation", Number(generation.value), ",\"generation\":");
      Concat("{\"id\":" + Quoted(id), ",\"generation\":", NumberText(generation.value));
    }
  }

  lemma HeadIsBuilt(id: string, generation: Option<int>, kind: string, start: string)
    requires start ==
      "{\"id\":" + Quoted(id) + if generation.Some? then ",\"generation\":" + NumberText(generation.value) else ""
    ensures "{" + MembersText(Head(id, generation, kind)) == start + ",\"type\":" + Quoted(kind)
  {
    OwnerIsBuilt(id, generation);
    AppendMember(Owner(id, generation), "type", Text(kind), ",\"type\":");
  }

  /** A document's generation, when it has one written in full. */
  predicate Exact(generation: Option<real>) {
    generation.Some? ==> Whole(generation.value)
  }

  function WholeOf(generation: Option<real>): Option<int> {
    if generation.Some? then Some(generation.value.Floor) else None
  }

  /** How every event starts; a generation that is not whole is written as the C library writes it. */
  function Begin(id: string, generation: Option<real>, dtostr: real -> string, kind: string): string {
    "{\"id\":" + Quoted(id)
    + (if generation.Some? then ",\"generation\":" + JsonNumber(generation.value, dtostr) else "")
    + ",\"type\":" + Quoted(kind)
  }

  method EventBegin(id: string, generation: Option<real>, dtostr: real -> string, kind: string) returns (out: string)
    ensures out == Begin(id, generation, dtostr, kind)
    ensures Exact(generation) ==> out == "{" + MembersText(Head(id, WholeOf(generation), kind))
  {
    var text := JsonString(id);
    out := "{\"id\":" + text;
    if generation.Some? {
      out := out + (",\"generation\":" + JsonNumber(generation.value, dtostr));
    }
    if Exact(generation) {
      HeadIsBuilt(id, WholeOf(generation), kind, out);
    }
    text := JsonString(kind);
    out := out + ",\"type\":" + text;
  }

  /** An event with a url, a message or another text as its last member. */
  method EventWith(id: string, generation: Option<real>, dtostr: real -> string, kind: string, name: string,
                   value: string)
    returns (out: string)
    requires Letters(name)
    ensures out == Begin(id, generation, dtostr, kind) + ("," + "\"" + name + "\":") + Quoted(value) + "}"
    ensures Exact(generation) ==> out == ObjectText(Head(id, WholeOf(generation), kind) + [Member(name, Text(value))])
  {
    AppendMember(Head(id, WholeOf(generation), kind), name, Text(value), "," + "\"" + name + "\":");
    out := EventBegin(id, generation, dtostr, kind);
    var text := JsonString(value);
    out := out + ("," + "\"" + name + "\":") + text + "}";
  }

  /** An event with one more text member reads back as its fields. */
  lemma EventIsRead(id: string, generation: Option<int>, kind: string, name: string, value: string)
    requires NulFree(id) && NulFree(kind) && NulFree(name) && NulFree(value)
    ensures var ms := Head(id, generation, kind) + [Member(name, Text(value))];
            ReadObject(ObjectText(ms)) == Some(Read(ms, ""))
  {
    var ms := Head(id, generation, kind) + [Member(name, Text(value))];
    ObjectRoundTrip(ms, "");
    assert ObjectText(ms) + "" == ObjectText(ms);
    HeadIsKept(id, generation, kind);
    CutAllMore(Head(id, generation, kind), Member(name, Text(value)));
  }

  lemma HeadIsKept(id: string, generation: Option<int>, kind: string)
    requires NulFree(id) && NulFree(kind)
    ensures CutAll(Head(id, generation, kind)) == Head(id, generation, kind)
  {
    var first := Member("id", Text(id));
    CutAllMore([], first);
    assert [] + [first] == [first];
    if generation.Some? {
      CutAllMore([first], Member("generation", Number(generation.value)));
    }
    CutAllMore(Owner(id, generation), Member("type", Text(kind)));
  }

  lemma {:induction false} CutAllMore(ms: seq<Member>, m: Member)
    ensures CutAll(ms + [m]) == CutAll(ms) + [Cut(m)]
  {
    if ms == [] {
      assert ms + [m] == [m] && [m][1..] == ms;
    } else {
      CutAllMore(ms[1..], m);
      assert (ms + [m])[1..] == ms[1..] + [m];
    }
  }

  // ---- What the script can read ----

  /** The whole text is one object. */
  predicate IsObject(e: string) {
    ReadObject(e).Some? && ReadObject(e).value.rest == ""
  }

  /** An object as the companion writes it. */
  ghost predicate IsWritten(e: string) {
    exists ms :: e == ObjectText(ms)
  }

  lemma WrittenIsObject(e: string)
    requires IsWritten(e)
    ensures IsObject(e)
  {
    var ms :| e == ObjectText(ms);
    ObjectRoundTrip(ms, "");
    assert ObjectText(ms) + "" == ObjectText(ms);
  }

  /** The library writes a number that is none as "nan". An object with such a value as its second member, as an event's
      generation is, cannot be read, whatever follows. */
  lemma NoNumberIsRefused(first: Member, name: string, rest: string)
    ensures ReadObject("{" + (MemberText(first) + ("," + (Quoted(name) + (":" + ("nan" + rest)))))) == None
  {
    var bad := Quoted(name) + (":" + ("nan" + rest));
    BadMember(name, rest);
    MemberRoundTrip(first, "," + bad);
    BadMembers(MemberText(first) + ("," + bad), Cut(first), bad);
    Opened(MemberText(first) + ("," + bad));
  }

  lemma BadMembers(s: string, first: Member, bad: string)
    requires ReadMember(s) == Some(Read(first, "," + bad)) && ReadMember(bad) == None
    ensures ReadMembers(s) == None
  {
    assert ("," + bad)[1..] == bad;
    assert ReadMembers(bad) == None;
  }

  lemma BadMember(name: string, rest: string)
    ensures ReadMember(Quoted(name) + (":" + ("nan" + rest))) == None
  {
    var value := "nan" + rest;
    NameIsRead(name, value);
    BadValue(rest);
    assert SkipSpace(":" + value) == ":" + value;
  }

  lemma BadValue(rest: string)
    ensures SkipSpace("nan" + rest) == "nan" + rest && ReadValue("nan" + rest) == None
  {
    assert ("nan" + rest)[0] == 'n';
  }
}
