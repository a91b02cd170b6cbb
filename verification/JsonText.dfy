/**
 JSON text as `JSON.stringify` writes it, compact, and a parser for it. Strings are escaped as
 section 7 of RFC 8259 allows: the quote, the backslash and every control character. A number
 that is not printed as an integer stands for itself by the text it is printed with.
 */
module JsonText {
  import opened Wrappers

  datatype Json =
    | Null
    | Bool(b: bool)
    | Num(n: int)
    | Dec(text: Decimal)
    | Str(s: string)
    | Arr(items: seq<Json>)
    | Obj(members: seq<Member>)

  /** One own property; `Obj` lists them in the object's own-key order. */
  datatype Member = Member(key: string, value: Json)

  // --------------------------------------------------------------- numbers

  predicate IsDigit(c: char) {
    '0' <= c <= '9'
  }

  function DigitChar(d: nat): (c: char)
    requires d < 10
    ensures IsDigit(c) && DigitValue(c) == d
  {
    (('0' as int) + d) as char
  }

  function DigitValue(c: char): nat
    requires IsDigit(c)
  {
    (c as int) - ('0' as int)
  }

  /** Decimal digits without leading zeros. */
  function PrintNat(n: nat): (s: string)
    ensures s != [] && forall i :: 0 <= i < |s| ==> IsDigit(s[i])
  {
    if n < 10 then [DigitChar(n)] else PrintNat(n / 10) + [DigitChar(n % 10)]
  }

  function PrintInt(n: int): string {
    if n < 0 then "-" + PrintNat(-n) else PrintNat(n)
  }

  /** How many digits `s` starts with. */
  function DigitRun(s: string): (k: nat)
    ensures k <= |s| && forall i :: 0 <= i < k ==> IsDigit(s[i])
    ensures k < |s| ==> !IsDigit(s[k])
  {
    if s == [] || !IsDigit(s[0]) then 0 else 1 + DigitRun(s[1..])
  }

  function NatOf(digits: string): nat
    requires forall i :: 0 <= i < |digits| ==> IsDigit(digits[i])
  {
    if digits == [] then 0
    else 10 * NatOf(digits[..|digits| - 1]) + DigitValue(digits[|digits| - 1])
  }

  function ParseNat(s: string): (r: Option<(nat, string)>)
    ensures r.Some? ==> |r.value.1| < |s|
  {
    var k := DigitRun(s);
    if k == 0 || (k > 1 && s[0] == '0') then None else Some((NatOf(s[..k]), s[k..]))
  }

  function ParseInt(s: string): (r: Option<(int, string)>)
    ensures r.Some? ==> |r.value.1| < |s|
  {
    if s != [] && s[0] == '-' then
      match ParseNat(s[1..])
      case None => None
      case Some((n, rest)) => var i: int := n; Some((-i, rest))
    else
      match ParseNat(s)
      case None => None
      case Some((n, rest)) => Some((n, rest))
  }

  /** What is left behind a fraction, if there is one. */
  function AfterFraction(s: string): (rest: Option<string>) {
    if s == [] || s[0] != '.' then Some(s)
    else
      var k := DigitRun(s[1..]);
      if k == 0 then None else Some(s[1 + k..])
  }

  /** And behind an exponent. */
  function AfterExponent(s: string): (rest: Option<string>) {
    if s == [] || s[0] !in "eE" then Some(s)
    else
      var digits := if |s| > 1 && s[1] in "+-" then s[2..] else s[1..];
      var k := DigitRun(digits);
      if k == 0 then None else Some(digits[k..])
  }

  predicate IsNumberChar(c: char) {
    IsDigit(c) || c in "+-.eE"
  }

  predicate AllNumberChars(s: string) {
    forall i :: 0 <= i < |s| ==> IsNumberChar(s[i])
  }

  /** A number as section 6 of RFC 8259 writes it, with a fraction, an exponent or both. */
  predicate IsDecimal(s: string) {
    && AllNumberChars(s)
    && match ParseInt(s)
       case None => false
       case Some((_, rest)) =>
         rest != "" && AfterFraction(rest).Some? && AfterExponent(AfterFraction(rest).value) == Some("")
  }

  type Decimal = s: string | IsDecimal(s) witness "0.5"

  /** How many number characters `s` starts with. */
  function NumberRun(s: string): (k: nat)
    ensures k <= |s|
  {
    if s == [] || !IsNumberChar(s[0]) then 0 else 1 + NumberRun(s[1..])
  }

  /** The number that `s` starts with: all its number characters have to belong to it. */
  function ParseNumber(s: string): (r: Option<(Json, string)>)
    ensures r.Some? ==> |r.value.1| < |s|
  {
    var k := NumberRun(s);
    var text := s[..k];
    var whole := ParseInt(text);
    if whole.Some? && whole.value.1 == "" then Some((Num(whole.value.0), s[k..]))
    else if IsDecimal(text) then Some((Dec(text), s[k..]))
    else None
  }

  // --------------------------------------------------------------- strings

  function HexDigit(d: nat): (c: char)
    requires d < 16
  {
    "0123456789abcdef"[d]
  }

  function HexValue(c: char): Option<nat> {
    if '0' <= c <= '9' then Some((c as int) - ('0' as int))
    else if 'a' <= c <= 'f' then Some((c as int) - ('a' as int) + 10)
    else if 'A' <= c <= 'F' then Some((c as int) - ('A' as int) + 10)
    else None
  }

  const BACKSPACE: char := '\U{0008}'
  const FORM_FEED: char := '\U{000C}'

  function EscapeChar(c: char): string {
    if c == '\"' then "\\\""
    else if c == '\\' then "\\\\"
    else if c == BACKSPACE then "\\b"
    else if c == FORM_FEED then "\\f"
    else if c == '\n' then "\\n"
    else if c == '\r' then "\\r"
    else if c == '\t' then "\\t"
    else if c as int < 0x20 then "\\u00" + [HexDigit(c as int / 16), HexDigit(c as int % 16)]
    else [c]
  }

  function Escape(s: string): string {
    if s == [] then [] else EscapeChar(s[0]) + Escape(s[1..])
  }

  /** The first, possibly escaped, character of a string body and the text behind it. */
  function ParseChar(s: string): (r: Option<(char, string)>)
    ensures r.Some? ==> |r.value.1| < |s|
  {
    if s == [] || s[0] as int < 0x20 then None
    else if s[0] != '\\' then Some((s[0], s[1..]))
    else if |s| < 2 then None
    else match s[1]
      case '\"' => Some(('\"', s[2..]))
      case '\\' => Some(('\\', s[2..]))
      case '/' => Some(('/', s[2..]))
      case 'b' => Some((BACKSPACE, s[2..]))
      case 'f' => Some((FORM_FEED, s[2..]))
      case 'n' => Some(('\n', s[2..]))
      case 'r' => Some(('\r', s[2..]))
      case 't' => Some(('\t', s[2..]))
      case 'u' => ParseUnicodeEscape(s[2..])
      case _ => None
  }

  /** Four hex digits naming a character outside the surrogate range. */
  function ParseUnicodeEscape(s: string): (r: Option<(char, string)>)
    ensures r.Some? ==> |r.value.1| < |s|
  {
    if |s| < 4 then None
    else
      match (HexValue(s[0]), HexValue(s[1]), HexValue(s[2]), HexValue(s[3]))
      case (Some(a), Some(b), Some(c), Some(d)) =>
        var code := ((a * 16 + b) * 16 + c) * 16 + d;
        if code < 0xD800 || 0xE000 <= code < 0x10000 then Some((code as char, s[4..])) else None
      case _ => None
  }

  /** A string body up to and including its closing quote. */
  function ParseStringBody(s: string): (r: Option<(string, string)>)
    ensures r.Some? ==> |r.value.1| < |s|
  {
    if s == [] then None
    else if s[0] == '\"' then Some(([], s[1..]))
    else
      match ParseChar(s)
      case None => None
      case Some((c, rest)) =>
        match ParseStringBody(rest)
        case None => None
        case Some((cs, rest')) => Some(([c] + cs, rest'))
  }

  // ---------------------------------------------------------------- values

  function Quote(s: string): string {
    "\"" + Escape(s) + "\""
  }

  /** `JSON.stringify(v)`. */
  function Print(v: Json): string
    decreases v, 1
  {
    match v
    case Null => "null"
    case Bool(b) => if b then "true" else "false"
    case Num(n) => PrintInt(n)
    case Dec(text) => text
    case Str(s) => Quote(s)
    case Arr(items) => "[" + PrintItems(items)
    case Obj(members) => "{" + PrintMembers(members)
  }

  /** The items of an array and its closing bracket. */
  function PrintItems(items: seq<Json>): string
    decreases items, 0
  {
    if items == [] then "]"
    else Print(items[0]) + if |items| == 1 then "]" else "," + PrintItems(items[1..])
  }

  /** The members of an object and its closing brace. */
  function PrintMembers(members: seq<Member>): string
    decreases members, 0
  {
    if members == [] then "}"
    else
      Quote(members[0].key) + ":" + Print(members[0].value)
      + if |members| == 1 then "}" else "," + PrintMembers(members[1..])
  }

  function ParseValue(s: string): (r: Option<(Json, string)>)
    ensures r.Some? ==> |r.value.1| < |s|
    decreases |s|, 0
  {
    if s == [] then None
    else if s[0] == 'n' then if "null" <= s then Some((Null, s[4..])) else None
    else if s[0] == 't' then if "true" <= s then Some((Bool(true), s[4..])) else None
    else if s[0] == 'f' then if "false" <= s then Some((Bool(false), s[5..])) else None
    else if s[0] == '\"' then
      match ParseStringBody(s[1..])
      case None => None
      case Some((cs, rest)) => Some((Str(cs), rest))
    else if s[0] == '[' then
      if |s| > 1 && s[1] == ']' then Some((Arr([]), s[2..]))
      else match ParseItems(s[1..])
        case None => None
        case Some((items, rest)) => Some((Arr(items), rest))
    else if s[0] == '{' then
      if |s| > 1 && s[1] == '}' then Some((Obj([]), s[2..]))
      else match ParseMembers(s[1..])
        case None => None
        case Some((members, rest)) => Some((Obj(members), rest))
    else ParseNumber(s)
  }

  /** One item or more, then the closing bracket. */
  function ParseItems(s: string): (r: Option<(seq<Json>, string)>)
    ensures r.Some? ==> |r.value.1| < |s|
    decreases |s|, 1
  {
    match ParseValue(s)
    case None => None
    case Some((v, rest)) =>
      if rest == [] then None
      else if rest[0] == ']' then Some(([v], rest[1..]))
      else if rest[0] != ',' then None
      else match ParseItems(rest[1..])
        case None => None
        case Some((vs, rest')) => Some(([v] + vs, rest'))
  }

  /** One member or more, then the closing brace. */
  function ParseMembers(s: string): (r: Option<(seq<Member>, string)>)
    ensures r.Some? ==> |r.value.1| < |s|
    decreases |s|, 1
  {
    if s == [] || s[0] != '\"' then None
    else match ParseStringBody(s[1..])
      case None => None
      case Some((key, rest)) =>
        if rest == [] || rest[0] != ':' then None
        else match ParseValue(rest[1..])
          case None => None
          case Some((v, rest')) =>
            if rest' == [] then None
            else if rest'[0] == '}' then Some(([Member(key, v)], rest'[1..]))
            else if rest'[0] != ',' then None
            else match ParseMembers(rest'[1..])
              case None => None
              case Some((ms, rest'')) => Some(([Member(key, v)] + ms, rest''))
  }

  /** `JSON.parse(s)` on compact text: one value and nothing behind it. */
  function Parse(s: string): Option<Json> {
    match ParseValue(s)
    case Some((v, rest)) => if rest == [] then Some(v) else None
    case None => None
  }

  // ------------------------------------------------- the parser inverts it

  lemma {:induction false} NatOfPrintNat(n: nat)
    ensures NatOf(PrintNat(n)) == n
    ensures |PrintNat(n)| > 1 ==> PrintNat(n)[0] != '0'
    ensures n > 0 ==> PrintNat(n)[0] != '0'
  {
    if n < 10 {
      assert [DigitChar(n)][..0] == [];
    } else {
      NatOfPrintNat(n / 10);
      var s := PrintNat(n);
      assert s[..|s| - 1] == PrintNat(n / 10);
    }
  }

  lemma {:induction false} DigitRunPrefix(digits: string, rest: string)
    requires forall i :: 0 <= i < |digits| ==> IsDigit(digits[i])
    requires rest == [] || !IsDigit(rest[0])
    ensures DigitRun(digits + rest) == |digits|
  {
    if digits == [] {
      assert digits + rest == rest;
    } else {
      DigitRunPrefix(digits[1..], rest);
      assert (digits + rest)[1..] == digits[1..] + rest;
    }
  }

  lemma ParseNatInvertsPrintNat(n: nat, rest: string)
    requires rest == [] || !IsDigit(rest[0])
    ensures ParseNat(PrintNat(n) + rest) == Some((n, rest))
  {
    var s := PrintNat(n) + rest;
    DigitRunPrefix(PrintNat(n), rest);
    NatOfPrintNat(n);
    assert s[..|PrintNat(n)|] == PrintNat(n) && s[|PrintNat(n)|..] == rest;
  }

  lemma HexInverts(d: nat)
    requires d < 16
    ensures HexValue(HexDigit(d)) == Some(d)
  {
  }

  lemma ParseCharInvertsEscapeChar(c: char, rest: string)
    ensures ParseChar(EscapeChar(c) + rest) == Some((c, rest))
    ensures EscapeChar(c)[0] != '\"'
  {
    var s := EscapeChar(c) + rest;
    if |EscapeChar(c)| == 1 {
      assert s[1..] == rest;
    } else if |EscapeChar(c)| == 2 {
      assert s[2..] == rest;
    } else {
      var hex := ['0', '0', HexDigit(c as int / 16), HexDigit(c as int % 16)];
      assert s[2..] == hex + rest;
      ParseHexCode(c, hex + rest, rest);
    }
  }

  lemma ParseHexCode(c: char, s: string, rest: string)
    requires c as int < 0x20 && s == ['0', '0', HexDigit(c as int / 16), HexDigit(c as int % 16)] + rest
    ensures ParseUnicodeEscape(s) == Some((c, rest))
  {
    HexInverts(c as int / 16);
    HexInverts(c as int % 16);
    assert s[4..] == rest;
  }

  lemma {:induction false} ParseStringInvertsEscape(s: string, rest: string)
    ensures ParseStringBody(Escape(s) + "\"" + rest) == Some((s, rest))
  {
    var text := Escape(s) + "\"" + rest;
    if s == [] {
      assert text == "\"" + rest;
      assert text[1..] == rest;
    } else {
      var tail := Escape(s[1..]) + "\"" + rest;
      assert text == EscapeChar(s[0]) + tail;
      ParseCharInvertsEscapeChar(s[0], tail);
      ParseStringInvertsEscape(s[1..], rest);
      assert [s[0]] + s[1..] == s;
    }
  }

  /** `text`, inside quotes, reads as the one character `c`. */
  predicate Spells(text: string, c: char) {
    ParseStringBody(text + "\"") == Some(([c], ""))
  }

  /** Every character is printed by the shortest text that spells it, with hex digits in lower case. */
  lemma EscapeIsShortest(c: char, text: string)
    ensures Spells(EscapeChar(c), c)
    ensures Spells(text, c) ==> |EscapeChar(c)| <= |text|
    ensures |EscapeChar(c)| > 1 ==> forall i :: 0 <= i < |EscapeChar(c)| ==> !('A' <= EscapeChar(c)[i] <= 'F')
  {
    EscapeSpells(c);
    if Spells(text, c) {
      if |EscapeChar(c)| > 1 {
        SpellingIsLong(c, text);
      }
    }
  }

  lemma EscapeSpells(c: char)
    ensures Spells(EscapeChar(c), c)
  {
    ParseStringInvertsEscape([c], "");
    assert Escape([c]) + "\"" + "" == EscapeChar(c) + "\"";
  }

  lemma SpellingIsLong(c: char, text: string)
    requires Spells(text, c) && |EscapeChar(c)| > 1
    ensures |EscapeChar(c)| <= |text|
  {
    var s := text + "\"";
    assert text != "" && s[0] == text[0] && s[|text|] == '\"';
    var (first, rest) := ParseChar(s).value;
    assert ([first] + ParseStringBody(rest).value.0)[0] == first;
    assert first == c;
    if s[0] == '\\' && s[1] == 'u' {
      var hex := s[2..];
      assert ParseUnicodeEscape(hex).Some? && hex[|text| - 2] == '\"';
    }
  }

  lemma PrintStart(v: Json)
    ensures Print(v) != [] && Print(v)[0] !in "]},:"
  {
    match v
    case Num(n) => PrintIntIsNumber(n);
    case _ =>
  }

  /** No text that could extend a number. */
  predicate Ends(rest: string) {
    rest == [] || !IsNumberChar(rest[0])
  }

  lemma {:induction false} NumberRunPrefix(text: string, rest: string)
    requires AllNumberChars(text) && Ends(rest)
    ensures NumberRun(text + rest) == |text|
  {
    if text == [] {
      assert text + rest == rest;
    } else {
      NumberRunPrefix(text[1..], rest);
      assert (text + rest)[1..] == text[1..] + rest;
    }
  }

  lemma {:induction false} ParseNegative(n: nat, rest: string)
    requires rest == [] || !IsDigit(rest[0])
    ensures ParseInt("-" + PrintNat(n) + rest) == Some((-(n as int), rest))
  {
    var s := "-" + PrintNat(n) + rest;
    assert s[1..] == PrintNat(n) + rest;
    ParseNatInvertsPrintNat(n, rest);
  }

  lemma {:induction false} ParseNonNegative(n: nat, rest: string)
    requires rest == [] || !IsDigit(rest[0])
    ensures ParseInt(PrintNat(n) + rest) == Some((n, rest))
  {
    ParseNatInvertsPrintNat(n, rest);
    assert IsDigit((PrintNat(n) + rest)[0]);
  }

  lemma {:induction false} ParseIntInvertsPrintInt(n: int, rest: string)
    requires rest == [] || !IsDigit(rest[0])
    ensures ParseInt(PrintInt(n) + rest) == Some((n, rest))
  {
    if n < 0 {
      ParseNegative(-n, rest);
    } else {
      ParseNonNegative(n, rest);
    }
  }

  lemma PrintIntIsNumber(n: int)
    ensures AllNumberChars(PrintInt(n)) && PrintInt(n) != ""
  {
  }

  lemma ParseNumInvertsPrint(n: int, rest: string)
    requires Ends(rest)
    ensures ParseNumber(PrintInt(n) + rest) == Some((Num(n), rest))
  {
    var text := PrintInt(n);
    PrintIntIsNumber(n);
    NumberRunPrefix(text, rest);
    assert (text + rest)[..|text|] == text && (text + rest)[|text|..] == rest;
    ParseIntInvertsPrintInt(n, "");
    assert text + "" == text;
  }

  lemma ParseDecInvertsPrint(text: Decimal, rest: string)
    requires Ends(rest)
    ensures ParseNumber(text + rest) == Some((Dec(text), rest))
  {
    NumberRunPrefix(text, rest);
    assert (text + rest)[..|text|] == text && (text + rest)[|text|..] == rest;
  }

  predicate AllDigits(s: string) {
    s != [] && forall i :: 0 <= i < |s| ==> IsDigit(s[i])
  }

  predicate IsFraction(s: string) {
    s != [] && s[0] == '.' && AllDigits(s[1..])
  }

  predicate IsExponent(s: string) {
    |s| > 1 && s[0] == 'e' && s[1] in "+-" && AllDigits(s[2..])
  }

  lemma DigitsBefore(digits: string, rest: string)
    requires AllDigits(digits) && (rest == [] || !IsDigit(rest[0]))
    ensures DigitRun(digits + rest) == |digits| && (digits + rest)[|digits|..] == rest
  {
    DigitRunPrefix(digits, rest);
  }

  lemma FractionEnds(fraction: string, rest: string)
    requires (fraction == "" && (rest == "" || rest[0] != '.')) || IsFraction(fraction)
    requires rest == [] || !IsDigit(rest[0])
    ensures AfterFraction(fraction + rest) == Some(rest)
  {
    if fraction == "" {
      assert fraction + rest == rest;
    } else {
      assert (fraction + rest)[1..] == fraction[1..] + rest;
      DigitsBefore(fraction[1..], rest);
    }
  }

  lemma ExponentEnds(exponent: string)
    requires exponent == "" || IsExponent(exponent)
    ensures AfterExponent(exponent) == Some("")
  {
    if exponent != "" {
      assert exponent[2..] + "" == exponent[2..];
      DigitsBefore(exponent[2..], "");
    }
  }

  /** The texts that section 6.1.6.1.20 of ECMA-262 prints numbers with, apart from integers, are all such. */
  lemma PrintedNumberIsDecimal(negative: bool, n: nat, fraction: string, exponent: string)
    requires fraction == "" || IsFraction(fraction)
    requires exponent == "" || IsExponent(exponent)
    requires fraction + exponent != ""
    ensures IsDecimal((if negative then "-" else "") + PrintNat(n) + (fraction + exponent))
  {
    var rest := fraction + exponent;
    FractionEnds(fraction, exponent);
    ExponentEnds(exponent);
    FractionChars(fraction, exponent);
    WholePart(negative, n, rest);
    WholeChars(negative, n, rest);
  }

  /** The digits in front are read as an integer. */
  lemma WholePart(negative: bool, n: nat, rest: string)
    requires rest != "" && !IsDigit(rest[0])
    ensures
      var whole := ParseInt((if negative then "-" else "") + PrintNat(n) + rest);
      whole.Some? && whole.value.1 == rest
  {
    if negative {
      ParseNegative(n, rest);
    } else {
      assert "" + PrintNat(n) == PrintNat(n);
      ParseNonNegative(n, rest);
    }
  }

  lemma WholeChars(negative: bool, n: nat, rest: string)
    requires AllNumberChars(rest)
    ensures AllNumberChars((if negative then "-" else "") + PrintNat(n) + rest)
  {
  }

  lemma FractionChars(fraction: string, exponent: string)
    requires fraction == "" || IsFraction(fraction)
    requires exponent == "" || IsExponent(exponent)
    ensures AllNumberChars(fraction + exponent)
  {
    forall i | 0 <= i < |fraction| ensures IsNumberChar(fraction[i]) {
      assert i > 0 ==> fraction[1..][i - 1] == fraction[i];
    }
    forall i | 0 <= i < |exponent| ensures IsNumberChar(exponent[i]) {
      assert i > 1 ==> exponent[2..][i - 2] == exponent[i];
    }
  }

  /** No other value begins with a number character. */
  lemma BeginsNumber(s: string)
    requires s != "" && IsNumberChar(s[0])
    ensures ParseValue(s) == ParseNumber(s)
  {
  }

  lemma {:induction false} ParseStrInvertsPrint(cs: string, rest: string)
    ensures ParseValue(Quote(cs) + rest) == Some((Str(cs), rest))
  {
    ParseStringInvertsEscape(cs, rest);
    Unquoted(Escape(cs), rest);
    BeginsString(Quote(cs) + rest, cs, rest);
  }

  lemma Unquoted(text: string, rest: string)
    ensures ("\"" + text + "\"" + rest)[1..] == text + "\"" + rest
  {
  }

  lemma BeginsString(s: string, cs: string, rest: string)
    requires s != "" && s[0] == '\"' && ParseStringBody(s[1..]) == Some((cs, rest))
    ensures ParseValue(s) == Some((Str(cs), rest))
  {
  }

  lemma BeginsArray(s: string, items: seq<Json>, rest: string)
    requires |s| > 1 && s[0] == '[' && s[1] != ']' && ParseItems(s[1..]) == Some((items, rest))
    ensures ParseValue(s) == Some((Arr(items), rest))
  {
  }

  lemma BeginsObject(s: string, members: seq<Member>, rest: string)
    requires |s| > 1 && s[0] == '{' && s[1] != '}' && ParseMembers(s[1..]) == Some((members, rest))
    ensures ParseValue(s) == Some((Obj(members), rest))
  {
  }

  /** The parser reads back exactly what was printed and leaves what follows. */
  lemma {:induction false} ParseValueInvertsPrint(v: Json, rest: string)
    requires Ends(rest)
    ensures ParseValue(Print(v) + rest) == Some((v, rest))
    decreases v, 1
  {
    var s := Print(v) + rest;
    match v
    case Null => assert s[..4] == "null"; assert s[4..] == rest;
    case Bool(b) =>
      if b {
        assert s[..4] == "true"; assert s[4..] == rest;
      } else {
        assert s[..5] == "false"; assert s[5..] == rest;
      }
    case Num(n) =>
      PrintIntIsNumber(n);
      ParseNumInvertsPrint(n, rest);
      BeginsNumber(s);
    case Dec(text) =>
      ParseDecInvertsPrint(text, rest);
      BeginsNumber(s);
    case Str(cs) => ParseStrInvertsPrint(cs, rest);
    case Arr(items) => ParseArrayInvertsPrint(items, rest);
    case Obj(members) => ParseObjectInvertsPrint(members, rest);
  }

  lemma {:induction false} ParseArrayInvertsPrint(items: seq<Json>, rest: string)
    ensures ParseValue("[" + PrintItems(items) + rest) == Some((Arr(items), rest))
    decreases items, 1
  {
    var s := "[" + PrintItems(items) + rest;
    assert s[1..] == PrintItems(items) + rest;
    if items == [] {
      assert s[2..] == rest;
    } else {
      PrintStart(items[0]);
      ParseItemsInvertsPrint(items, rest);
      BeginsArray(s, items, rest);
    }
  }

  lemma {:induction false} ParseObjectInvertsPrint(members: seq<Member>, rest: string)
    ensures ParseValue("{" + PrintMembers(members) + rest) == Some((Obj(members), rest))
    decreases members, 1
  {
    var s := "{" + PrintMembers(members) + rest;
    assert s[1..] == PrintMembers(members) + rest;
    if members == [] {
      assert s[2..] == rest;
    } else {
      ParseMembersInvertsPrint(members, rest);
      BeginsObject(s, members, rest);
    }
  }

  lemma {:induction false} ParseItemsInvertsPrint(items: seq<Json>, rest: string)
    requires items != []
    ensures ParseItems(PrintItems(items) + rest) == Some((items, rest))
    decreases items, 0
  {
    var v := items[0];
    if |items| == 1 {
      Associate(Print(v), "]", rest);
      ParseValueInvertsPrint(v, "]" + rest);
      assert ("]" + rest)[1..] == rest;
      assert items == [v];
    } else {
      var more := PrintItems(items[1..]);
      var tail := "," + (more + rest);
      Associate(Print(v), "," + more, rest);
      Associate(",", more, rest);
      ParseValueInvertsPrint(v, tail);
      assert tail[1..] == more + rest;
      ParseItemsInvertsPrint(items[1..], rest);
      assert items == [v] + items[1..];
    }
  }

  /** What follows the key of the first member. */
  function AfterKey(members: seq<Member>, rest: string): string
    requires members != []
  {
    Print(members[0].value)
    + (if |members| == 1 then "}" + rest else "," + (PrintMembers(members[1..]) + rest))
  }

  lemma PrintedMembers(members: seq<Member>, rest: string)
    requires members != []
    ensures PrintMembers(members) + rest
         == "\"" + (Escape(members[0].key) + "\"" + (":" + AfterKey(members, rest)))
  {
    var key, value := Escape(members[0].key), Print(members[0].value);
    if |members| == 1 {
      Regroup("\"", key, ":", value, "}", rest);
    } else {
      Regroup("\"", key, ":", value, "," + PrintMembers(members[1..]), rest);
      Associate(",", PrintMembers(members[1..]), rest);
    }
  }

  lemma Associate(a: string, b: string, c: string)
    ensures (a + b) + c == a + (b + c)
  {
  }

  lemma Regroup(quote: string, key: string, colon: string, value: string, end: string, rest: string)
    ensures (quote + key + quote + colon + value + end) + rest
      == quote + (key + quote + (colon + (value + (end + rest))))
  {
  }

  lemma ParseKey(members: seq<Member>, rest: string)
    requires members != []
    ensures var s := PrintMembers(members) + rest;
      s != [] && s[0] == '\"'
      && ParseStringBody(s[1..]) == Some((members[0].key, ":" + AfterKey(members, rest)))
  {
    var tail := ":" + AfterKey(members, rest);
    var body := Escape(members[0].key) + "\"" + tail;
    PrintedMembers(members, rest);
    assert ("\"" + body)[1..] == body;
    ParseStringInvertsEscape(members[0].key, tail);
  }

  lemma {:induction false} ParseMembersInvertsPrint(members: seq<Member>, rest: string)
    requires members != []
    ensures ParseMembers(PrintMembers(members) + rest) == Some((members, rest))
    decreases members, 0
  {
    if |members| == 1 {
      ParseValueInvertsPrint(members[0].value, "}" + rest);
      LastMember(members, rest);
    } else {
      var more := PrintMembers(members[1..]) + rest;
      ParseValueInvertsPrint(members[0].value, "," + more);
      ParseMembersInvertsPrint(members[1..], rest);
      MoreMembers(members, rest, more);
    }
  }

  lemma LastMember(members: seq<Member>, rest: string)
    requires |members| == 1 && ParseValue(AfterKey(members, rest)) == Some((members[0].value, "}" + rest))
    ensures ParseMembers(PrintMembers(members) + rest) == Some((members, rest))
  {
    ParseKey(members, rest);
    Behind('}', rest);
    MembersStep(PrintMembers(members) + rest, members[0], AfterKey(members, rest), "}" + rest);
    assert members == [members[0]];
  }

  lemma MoreMembers(members: seq<Member>, rest: string, more: string)
    requires |members| > 1 && ParseValue(AfterKey(members, rest)) == Some((members[0].value, "," + more))
    requires ParseMembers(more) == Some((members[1..], rest))
    ensures ParseMembers(PrintMembers(members) + rest) == Some((members, rest))
  {
    var s, tail := PrintMembers(members) + rest, "," + more;
    ParseKey(members, rest);
    Behind(',', more);
    MembersStep(s, members[0], AfterKey(members, rest), tail);
    FirstAndRest(members);
  }

  lemma FirstAndRest<T>(xs: seq<T>)
    requires xs != []
    ensures [xs[0]] + xs[1..] == xs
  {
  }

  lemma Behind(c: char, s: string)
    ensures ([c] + s)[0] == c && ([c] + s)[1..] == s
  {
  }

  lemma MembersStep(s: string, m: Member, after: string, tail: string)
    requires s != [] && s[0] == '\"' && ParseStringBody(s[1..]) == Some((m.key, ":" + after))
    requires ParseValue(after) == Some((m.value, tail)) && tail != []
    ensures tail[0] == '}' ==> ParseMembers(s) == Some(([m], tail[1..]))
    ensures tail[0] == ',' && ParseMembers(tail[1..]).Some? ==>
      ParseMembers(s) == Some(([m] + ParseMembers(tail[1..]).value.0, ParseMembers(tail[1..]).value.1))
  {
    assert (":" + after)[1..] == after;
  }

  /** `JSON.parse(JSON.stringify(v))` is `v`. */
  lemma ParseInvertsPrint(v: Json)
    ensures Parse(Print(v)) == Some(v)
  {
    ParseValueInvertsPrint(v, []);
    assert Print(v) + [] == Print(v);
  }

  /** Printed text is one line: control characters never appear in it unescaped. */
  predicate OneLine(s: string) {
    forall i :: 0 <= i < |s| ==> s[i] as int >= 0x20
  }

  lemma {:induction false} EscapeIsOneLine(s: string)
    ensures OneLine(Escape(s))
  {
    if s != [] {
      EscapeIsOneLine(s[1..]);
      assert OneLine(EscapeChar(s[0]));
    }
  }

  lemma {:induction false} PrintIsOneLine(v: Json)
    ensures OneLine(Print(v))
    decreases v, 1
  {
    match v
    case Str(s) => EscapeIsOneLine(s);
    case Arr(items) => PrintItemsIsOneLine(items);
    case Obj(members) => PrintMembersIsOneLine(members);
    case _ =>
  }

  lemma {:induction false} PrintItemsIsOneLine(items: seq<Json>)
    ensures OneLine(PrintItems(items))
    decreases items, 0
  {
    if items != [] {
      PrintIsOneLine(items[0]);
      if |items| > 1 {
        PrintItemsIsOneLine(items[1..]);
      }
    }
  }

  lemma {:induction false} PrintMembersIsOneLine(members: seq<Member>)
    ensures OneLine(PrintMembers(members))
    decreases members, 0
  {
    if members != [] {
      EscapeIsOneLine(members[0].key);
      PrintIsOneLine(members[0].value);
      if |members| > 1 {
        PrintMembersIsOneLine(members[1..]);
      }
    }
  }
}
