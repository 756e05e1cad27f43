/** Reading what was written gives the value back. */
module JsonRoundTrip {
  import opened Outcomes
  import opened JsonValues
  import opened JsonWriting
  import opened JsonReading

  /** The input does not go on with a character that a number would take up. */
  predicate Delimited(tail: string) {
    tail == [] || !InNumber(tail[0])
  }

  // ----- strings -----

  lemma LengthPlain(c: char, rest: string)
    requires c != '"' && c != '\\'
    ensures StringLength([c] + rest) == if StringLength(rest) == -1 then -1 else 1 + StringLength(rest)
  {
    assert ([c] + rest)[1..] == rest;
  }

  lemma LengthEscape(c: char, rest: string)
    ensures StringLength(['\\', c] + rest) == if StringLength(rest) == -1 then -1 else 2 + StringLength(rest)
  {
    assert (['\\', c] + rest)[2..] == rest;
  }

  lemma HexIsPlain(d: nat)
    requires d < 16
    ensures Hex(d) != '"' && Hex(d) != '\\' && HexValue(Hex(d)) == d
  {
  }

  /** The cases of an escaped character. */
  lemma EscapedCases(c: char)
    ensures
      || (Escaped(c) == [c] && c != '"' && c != '\\')
      || (|Escaped(c)| == 2 && Escaped(c)[0] == '\\' && Escaped(c)[1] != 'u' && SimpleEscape(Escaped(c)[1]) == Some(c))
      || (IsControl(c) && Escaped(c) == ['\\', 'u', '0', '0', Hex(c as int / 16), Hex(c as int % 16)])
  {
  }

  lemma LengthOne(c: char, rest: string)
    requires StringLength(rest) != -1
    ensures StringLength(Escaped(c) + rest) == |Escaped(c)| + StringLength(rest)
  {
    hide StringLength, Escaped, Hex;
    EscapedCases(c);
    var e := Escaped(c);
    if |e| == 1 {
      LengthPlain(c, rest);
    } else if |e| == 2 {
      assert e + rest == ['\\', e[1]] + rest;
      LengthEscape(e[1], rest);
    } else {
      var h, l := Hex(c as int / 16), Hex(c as int % 16);
      HexIsPlain(c as int / 16);
      HexIsPlain(c as int % 16);
      assert e + rest == ['\\', 'u'] + (['0'] + (['0'] + ([h] + ([l] + rest))));
      LengthPlain(l, rest);
      LengthPlain(h, [l] + rest);
      LengthPlain('0', [h] + ([l] + rest));
      LengthPlain('0', ['0'] + ([h] + ([l] + rest)));
      LengthEscape('u', ['0'] + (['0'] + ([h] + ([l] + rest))));
    }
  }

  lemma {:induction false} LengthEscaped(s: string, tail: string)
    ensures StringLength(AllEscaped(s) + "\"" + tail) == |AllEscaped(s)| + 1
  {
    hide StringLength, Escaped;
    if s == [] {
      LengthQuote(tail);
      assert AllEscaped(s) + "\"" + tail == "\"" + tail;
    } else {
      LengthEscaped(s[1..], tail);
      var rest := AllEscaped(s[1..]) + "\"" + tail;
      LengthOne(s[0], rest);
      assert AllEscaped(s) + "\"" + tail == Escaped(s[0]) + rest;
    }
  }

  lemma LengthQuote(tail: string)
    ensures StringLength("\"" + tail) == 1
  {
  }

  lemma DecodeOne(c: char, rest: string)
    ensures DecodeChars(Escaped(c) + rest) == Before([c], DecodeChars(rest))
  {
    hide Escaped, Hex, HexFour, Utf8;
    EscapedCases(c);
    var e := Escaped(c);
    var s := e + rest;
    if |e| == 1 {
      assert s[1..] == rest;
    } else if |e| == 2 {
      assert s[2..] == rest;
    } else {
      var code := s[2..];
      assert code == ['0', '0', Hex(c as int / 16), Hex(c as int % 16)] + rest;
      HexControl(c, code);
      assert s[6..] == rest;
    }
  }

  lemma HexControl(c: char, code: string)
    requires IsControl(c) && |code| >= 4
    requires code[..4] == ['0', '0', Hex(c as int / 16), Hex(c as int % 16)]
    ensures CodePoint(code) == (c as int, 4) && Utf8(c as int) == [c]
  {
    hide Hex;
    HexIsPlain(c as int / 16);
    HexIsPlain(c as int % 16);
    assert code[0] == '0' && code[1] == '0' && code[2] == Hex(c as int / 16) && code[3] == Hex(c as int % 16) by {
      assert forall i :: 0 <= i < 4 ==> code[i] == code[..4][i];
    }
    assert HexFour(code) == c as int;
  }

  // ----- code points -----

  function HexDigits(n: nat): string
    requires n < 0x1_0000
  {
    [Hex(n / 0x1000), Hex(n / 0x100 % 0x10), Hex(n / 0x10 % 0x10), Hex(n % 0x10)]
  }

  lemma HexFourReads(n: nat, rest: string)
    requires n < 0x1_0000
    ensures HexFour(HexDigits(n) + rest) == n
  {
    hide Hex, HexValue;
    HexIsPlain(n / 0x1000);
    HexIsPlain(n / 0x100 % 0x10);
    HexIsPlain(n / 0x10 % 0x10);
    HexIsPlain(n % 0x10);
    Hexadecimal(n);
    var s := HexDigits(n) + rest;
    assert s[0] == Hex(n / 0x1000) && s[1] == Hex(n / 0x100 % 0x10) && s[2] == Hex(n / 0x10 % 0x10) && s[3] == Hex(n % 0x10);
  }

  lemma Hexadecimal(n: nat)
    ensures ((n / 0x1000 * 16 + n / 0x100 % 0x10) * 16 + n / 0x10 % 0x10) * 16 + n % 0x10 == n
  {
    assert n / 0x100 == n / 0x10 / 0x10 && n / 0x1000 == n / 0x100 / 0x10;
  }

  /** Every code point is read from its escape: one beyond 16 bits from a surrogate pair. */
  lemma CodePointReads(cp: nat, rest: string)
    requires cp <= 0x10ffff && !(0xD800 <= cp <= 0xDBFF)
    ensures cp < 0x1_0000 ==> CodePoint(HexDigits(cp) + rest) == (cp, 4)
    ensures cp >= 0x1_0000 ==>
      var c := cp - 0x1_0000;
      CodePoint(HexDigits(0xD800 + c / 0x400) + "\\u" + HexDigits(0xDC00 + c % 0x400) + rest) == (cp, 10)
  {
    hide HexDigits, HexFour;
    if cp < 0x1_0000 {
      HexFourReads(cp, rest);
      HexLength(cp);
    } else {
      var c := cp - 0x1_0000;
      var high, low := HexDigits(0xD800 + c / 0x400), HexDigits(0xDC00 + c % 0x400);
      HexLength(0xD800 + c / 0x400);
      HexLength(0xDC00 + c % 0x400);
      var s := high + "\\u" + low + rest;
      HexFourReads(0xD800 + c / 0x400, "\\u" + low + rest);
      HexFourReads(0xDC00 + c % 0x400, rest);
      assert s == high + ("\\u" + low + rest) && s[6..] == low + rest;
      assert s[4] == '\\' && s[5] == 'u';
    }
  }

  lemma HexLength(n: nat)
    requires n < 0x1_0000
    ensures |HexDigits(n)| == 4
  {
  }

  /** The code point of the first character of UTF-8 text, by section 3 of RFC 3629. */
  function FirstOfUtf8(s: string): int {
    if s == [] then -1
    else
      var a := s[0] as int;
      if a < 0x80 then a
      else if 0xC0 <= a < 0xE0 && |s| >= 2 then (a - 0xC0) * 0x40 + (s[1] as int - 0x80)
      else if 0xE0 <= a < 0xF0 && |s| >= 3 then ((a - 0xE0) * 0x40 + (s[1] as int - 0x80)) * 0x40 + (s[2] as int - 0x80)
      else if 0xF0 <= a < 0xF8 && |s| >= 4 then
        (((a - 0xF0) * 0x40 + (s[1] as int - 0x80)) * 0x40 + (s[2] as int - 0x80)) * 0x40 + (s[3] as int - 0x80)
      else -1
  }

  lemma Utf8Reads(cp: nat)
    requires cp <= 0x10ffff
    ensures FirstOfUtf8(Utf8(cp)) == cp
    ensures |Utf8(cp)| == if cp < 0x80 then 1 else if cp < 0x800 then 2 else if cp < 0x1_0000 then 3 else 4
    ensures forall i :: 0 < i < |Utf8(cp)| ==> 0x80 <= Utf8(cp)[i] as int < 0xC0
  {
    var s := Utf8(cp);
    if cp < 0x80 {
    } else if cp < 0x800 {
      assert s[0] as int == 0xC0 + cp / 0x40 && s[1] as int == 0x80 + cp % 0x40;
    } else if cp < 0x1_0000 {
      assert s[0] as int == 0xE0 + cp / 0x1000 && s[1] as int == 0x80 + cp / 0x40 % 0x40 && s[2] as int == 0x80 + cp % 0x40;
      assert cp / 0x1000 == cp / 0x40 / 0x40;
    } else {
      assert s[0] as int == 0xF0 + cp / 0x40000 && s[1] as int == 0x80 + cp / 0x1000 % 0x40;
      assert s[2] as int == 0x80 + cp / 0x40 % 0x40 && s[3] as int == 0x80 + cp % 0x40;
      assert cp / 0x1000 == cp / 0x40 / 0x40 && cp / 0x40000 == cp / 0x1000 / 0x40;
    }
  }

  lemma {:induction false} DecodeEscaped(s: string)
    ensures DecodeChars(AllEscaped(s)) == Some(s)
  {
    hide Escaped;
    if s != [] {
      DecodeEscaped(s[1..]);
      DecodeOne(s[0], AllEscaped(s[1..]));
      assert s == [s[0]] + s[1..];
    }
  }

  lemma StringReadBack(s: string, tail: string)
    requires NulFree(s)
    ensures ReadToken(Quoted(CString(s)) + tail) == Token(StringToken, Quoted(s), tail)
    ensures DecodeString(Quoted(s)) == Some(s)
  {
    hide StringLength, DecodeChars, AllEscaped, CString;
    CStringWhole(s);
    var input, e := Quoted(s) + tail, AllEscaped(s);
    assert input[1..] == e + "\"" + tail;
    LengthEscaped(s, tail);
    assert input[..|e| + 2] == Quoted(s) && input[|e| + 2..] == tail;
    assert Quoted(s)[1..|Quoted(s)| - 1] == e;
    DecodeEscaped(s);
  }

  // ----- numbers -----

  predicate AllDigits(s: string) {
    forall i :: 0 <= i < |s| ==> IsDigit(s[i])
  }

  /** The decimal number of the digits of v followed by d. */
  function DigitsValue(d: string, v: nat): nat
    requires AllDigits(d)
  {
    if d == [] then v else DigitsValue(d[1..], v * 10 + DigitOf(d[0]))
  }

  lemma {:induction false} DigitsGrow(d: string, v: nat)
    requires AllDigits(d)
    ensures DigitsValue(d, v) >= v
    ensures |d| > 0 ==> DigitsValue(d, v) >= 10 * v
  {
    if d != [] { DigitsGrow(d[1..], v * 10 + DigitOf(d[0])); }
  }

  /** The threshold test accepts exactly the numbers within the maximum. */
  lemma {:induction false} AccumulatedIff(d: string, v: nat, max: nat)
    requires AllDigits(d) && v <= max && max >= 100
    ensures Accumulated(d, v, max) == if DigitsValue(d, v) <= max then Within(DigitsValue(d, v)) else TooLarge
  {
    if d != [] {
      var w := v * 10 + DigitOf(d[0]);
      DigitsGrow(d[1..], w);
      if w <= max { AccumulatedIff(d[1..], w, max); }
    }
  }

  lemma {:induction false} DigitsValueLast(d: string, c: char, v: nat)
    requires AllDigits(d) && IsDigit(c)
    ensures AllDigits(d + [c]) && DigitsValue(d + [c], v) == DigitsValue(d, v) * 10 + DigitOf(c)
  {
    if d == [] {
      assert DigitsValue([c], v) == DigitsValue([c][1..], v * 10 + DigitOf(c));
    } else {
      DigitsValueLast(d[1..], c, v * 10 + DigitOf(d[0]));
      assert (d + [c])[1..] == d[1..] + [c];
    }
  }

  lemma {:induction false} DecimalValue(n: nat)
    ensures |Decimal(n)| > 0 && AllDigits(Decimal(n)) && DigitsValue(Decimal(n), 0) == n
  {
    if n < 10 {
      assert DigitOf(Digit(n)) == n;
      assert DigitsValue(Decimal(n), 0) == DigitsValue(Decimal(n)[1..], 0 * 10 + DigitOf(Decimal(n)[0]));
    } else {
      DecimalValue(n / 10);
      assert DigitOf(Digit(n % 10)) == n % 10;
      DigitsValueLast(Decimal(n / 10), Digit(n % 10), 0);
    }
  }

  lemma {:induction false} NumberLengthDigits(d: string, tail: string)
    requires AllDigits(d) && Delimited(tail)
    ensures NumberLength(d + tail) == |d|
  {
    if d == [] {
      assert d + tail == tail;
    } else {
      NumberLengthDigits(d[1..], tail);
      assert (d + tail)[1..] == d[1..] + tail;
    }
  }

  lemma IntegerReadBack(n: int, tail: string)
    requires -MAX_LARGEST_INT <= n <= MAX_LARGEST_UINT && Delimited(tail)
    ensures WrittenInteger(n) != []
    ensures ReadToken(WrittenInteger(n) + tail) == Token(NumberToken, WrittenInteger(n), tail)
    ensures DecodeNumber(WrittenInteger(n)) == Some(Integer(n))
  {
    hide Decimal, NumberLength, Accumulated, DigitsValue;
    var m := if n < 0 then -n else n;
    var d, text := Decimal(m), WrittenInteger(n);
    DecimalValue(m);
    var s := text + tail;
    var after := if n < 0 then d else d[1..];
    NumberLengthDigits(after, tail);
    assert s[1..] == after + tail;
    assert s[..|text|] == text && s[|text|..] == tail;
    assert n < 0 ==> text[1..] == d;
    AccumulatedIff(d, 0, if n < 0 then MAX_LARGEST_INT + 1 else MAX_LARGEST_UINT);
  }

  // ----- values -----

  lemma OneCharToken(c: char, rest: string)
    ensures c == '{' ==> ReadToken([c] + rest) == Token(ObjectBegin, "{", rest)
    ensures c == '}' ==> ReadToken([c] + rest) == Token(ObjectEnd, "}", rest)
    ensures c == '[' ==> ReadToken([c] + rest) == Token(ArrayBegin, "[", rest)
    ensures c == ']' ==> ReadToken([c] + rest) == Token(ArrayEnd, "]", rest)
    ensures c == ',' ==> ReadToken([c] + rest) == Token(Comma, ",", rest)
    ensures c == ':' ==> ReadToken([c] + rest) == Token(Colon, ":", rest)
  {
    assert ([c] + rest)[1..] == rest;
  }

  lemma NoComment(s: string)
    requires ReadToken(s).kind != Comment
    ensures PastComments(s) == ReadToken(s)
  {
  }

  lemma WordReadBack(tail: string)
    ensures ReadToken("null" + tail) == Token(NullToken, "null", tail)
    ensures ReadToken("true" + tail) == Token(TrueToken, "true", tail)
    ensures ReadToken("false" + tail) == Token(FalseToken, "false", tail)
  {
    assert ("null" + tail)[4..] == tail && ("true" + tail)[4..] == tail && ("false" + tail)[5..] == tail;
  }

  /** No written value starts with a space or a closing bracket. */
  lemma FirstCharacter(v: Value)
    requires Storable(v)
    ensures Written(v) != [] && !IsSpace(Written(v)[0]) && Written(v)[0] != ']'
  {
    hide Decimal, Quoted, ElementsFrom, MembersFrom;
    match v
    case Int(i) => DecimalValue(if i < 0 then -i else i);
    case UInt(u) => DecimalValue(u);
    case String(s) => assert Quoted(CString(s))[0] == '"' by { QuoteFirst(CString(s)); }
    case _ =>
  }

  lemma QuoteFirst(s: string)
    ensures Quoted(s) != [] && Quoted(s)[0] == '"'
  {
  }

  lemma NotASpace()
    ensures !IsSpace(']')
  {
  }

  /** What a written value is read back as, whatever delimited text follows it. */
  lemma {:induction false} ReadBack(v: Value, tail: string)
    requires Storable(v) && Delimited(tail)
    ensures ParseValue(Written(v) + tail) == Parsed(Retagged(v), tail)
    decreases v, 1, 0
  {
    hide ReadToken, DecodeNumber, DecodeString, Decimal, Quoted, ElementsFrom, MembersFrom, ParseArray, ParseMembers;
    match v
    case Null => WordReadBack(tail);
    case Bool(_) => WordReadBack(tail);
    case Int(i) => IntegerReadBack(i, tail);
    case UInt(u) => IntegerReadBack(u, tail);
    case String(s) =>
      StringReadBack(s, tail);
      CStringWhole(s);
    case Array(_) =>
      ArrayReadBack(v, tail);
      var rest := ElementsFrom(v, 0) + "]" + tail;
      assert Written(v) + tail == ['['] + rest;
      OneCharToken('[', rest);
    case Object(ms) =>
      ObjectReadBack(v, tail);
      var rest := MembersFrom(v, 0) + "}" + tail;
      assert Written(v) + tail == ['{'] + rest;
      OneCharToken('{', rest);
  }

  lemma {:induction false} ArrayReadBack(v: Value, tail: string)
    requires v.Array? && Storable(v) && Delimited(tail)
    ensures ParseArray(ElementsFrom(v, 0) + "]" + tail) == Parsed(Array(ElementsRetagged(v, 0)), tail)
    decreases v, 0, |v.elements| + 1
  {
    hide ParseElements, Written, Retagged, IsSpace;
    var s := ElementsFrom(v, 0) + "]" + tail;
    if v.elements == [] {
      assert s == [']'] + tail && s[1..] == tail;
      assert SkipSpaces(s) == s by { NotASpace(); }
    } else {
      FirstCharacter(v.elements[0]);
      ElementsReadBack(v, 0, [], tail);
      assert s == Written(v.elements[0]) + ElementsFrom(v, 1) + "]" + tail;
      assert s[0] == Written(v.elements[0])[0];
      assert SkipSpaces(s) == s;
      assert [] + ElementsRetagged(v, 0) == ElementsRetagged(v, 0);
    }
  }

  lemma {:induction false} ElementsReadBack(v: Value, i: nat, read: seq<Value>, tail: string)
    requires v.Array? && Storable(v) && Delimited(tail) && i < |v.elements|
    ensures ParseElements(Written(v.elements[i]) + ElementsFrom(v, i + 1) + "]" + tail, read)
            == Parsed(Array(read + ElementsRetagged(v, i)), tail)
    decreases v, 0, |v.elements| - i
  {
    hide ReadToken, PastComments, ParseValue, Written, Retagged;
    var rest, x := ElementsFrom(v, i + 1) + "]" + tail, Retagged(v.elements[i]);
    ReadBack(v.elements[i], rest);
    assert Written(v.elements[i]) + rest == Written(v.elements[i]) + ElementsFrom(v, i + 1) + "]" + tail;
    if i + 1 == |v.elements| {
      assert rest == [']'] + tail;
      OneCharToken(']', tail);
      NoComment(rest);
      assert ElementsRetagged(v, i) == [x];
    } else {
      var next := Written(v.elements[i + 1]) + ElementsFrom(v, i + 2) + "]" + tail;
      assert rest == [','] + next;
      OneCharToken(',', next);
      NoComment(rest);
      ElementsReadBack(v, i + 1, read + [x], tail);
      assert read + ElementsRetagged(v, i) == read + [x] + ElementsRetagged(v, i + 1);
    }
  }

  lemma {:induction false} ObjectReadBack(v: Value, tail: string)
    requires v.Object? && Storable(v) && Delimited(tail)
    ensures ParseMembers(MembersFrom(v, 0) + "}" + tail, "", []) == Parsed(Object(MembersRetagged(v, 0)), tail)
    decreases v, 0, |v.members| + 1
  {
    hide Written, ReadToken, PastComments, Pair, ParseMember, DecodeString;
    var s := MembersFrom(v, 0) + "}" + tail;
    if v.members == [] {
      assert s == ['}'] + tail;
      OneCharToken('}', tail);
      NoComment(s);
    } else {
      MembersReadBack(v, 0, "", [], tail);
      assert s == Pair(v.members[0].key, Written(v.members[0].value)) + MembersFrom(v, 1) + "}" + tail;
      assert [] + MembersRetagged(v, 0) == MembersRetagged(v, 0);
    }
  }

  /** One member, up to the token after its value. */
  lemma MemberReadBack(key: string, text: string, x: Value, after: string, name: string, read: seq<Member>)
    requires NulFree(key) && ParseValue(text + after) == Parsed(x, after)
    ensures var t, ms := ReadToken(after), SetMember(read, key, x);
      ParseMembers(Pair(key, text) + after, name, read)
      == if t.kind == ObjectEnd then Parsed(Object(ms), t.rest)
         else if t.kind == Comma then ParseMembers(t.rest, key, ms)
         else if t.kind == Comment then AfterComment(PastComments(t.rest), key, ms)
         else Failed
  {
    hide ReadToken, ParseValue, DecodeString, Quoted, CString, SetMember, AfterComment;
    var colon := [':'] + (text + after);
    assert Pair(key, text) + after == Quoted(CString(key)) + colon;
    StringReadBack(key, colon);
    OneCharToken(':', text + after);
    CStringWhole(key);
    assert ParseMembers(Pair(key, text) + after, name, read) == ParseMember(colon, key, read);
  }

  lemma AfterMember(v: Value, i: nat, tail: string)
    requires v.Object? && i < |v.members|
    ensures var after := MembersFrom(v, i + 1) + "}" + tail;
      && Delimited(after)
      && (i + 1 == |v.members| ==> after == ['}'] + tail)
      && (i + 1 < |v.members| ==>
            after == [','] + (Pair(v.members[i + 1].key, Written(v.members[i + 1].value)) + MembersFrom(v, i + 2) + "}" + tail))
  {
    hide Pair, Written;
  }

  lemma {:induction false} MembersReadBack(v: Value, i: nat, name: string, read: seq<Member>, tail: string)
    requires v.Object? && Storable(v) && Delimited(tail) && i < |v.members|
    requires |read| == i && forall j :: 0 <= j < i ==> read[j].key == v.members[j].key
    ensures ParseMembers(Pair(v.members[i].key, Written(v.members[i].value)) + MembersFrom(v, i + 1) + "}" + tail, name, read)
            == Parsed(Object(read + MembersRetagged(v, i)), tail)
    decreases v, 0, |v.members| - i
  {
    hide ReadToken, PastComments, ParseValue, ParseMembers, AfterComment, Written, Pair, KeyLess, NulFree, Retagged, InNumber, Delimited, MembersFrom;
    var key, x := v.members[i].key, Retagged(v.members[i].value);
    var text, after := Written(v.members[i].value), MembersFrom(v, i + 1) + "}" + tail;
    assert Pair(key, text) + MembersFrom(v, i + 1) + "}" + tail == Pair(key, text) + after;
    AfterMember(v, i, tail);
    ReadBack(v.members[i].value, after);
    MemberReadBack(key, text, x, after, name, read);
    SetMemberLast(read, key, x);
    if i + 1 == |v.members| {
      OneCharToken('}', tail);
      assert MembersRetagged(v, i) == [Member(key, x)];
    } else {
      var next := Pair(v.members[i + 1].key, Written(v.members[i + 1].value)) + MembersFrom(v, i + 2) + "}" + tail;
      OneCharToken(',', next);
      MembersReadBack(v, i + 1, key, read + [Member(key, x)], tail);
      assert read + MembersRetagged(v, i) == read + [Member(key, x)] + MembersRetagged(v, i + 1);
    }
  }

  /** A written document reads as the same tree, with integers tagged by their size. */
  lemma RoundTrip(v: Value)
    requires Storable(v)
    ensures ParseValue(Written(v) + "\n") == Parsed(Retagged(v), "\n")
  {
    hide ParseValue, Written;
    ReadBack(v, "\n");
  }

  /** Values written alike are the same tree up to the tags of their integers. */
  lemma WrittenAlike(a: Value, b: Value)
    requires Storable(a) && Storable(b) && Written(a) == Written(b)
    ensures Retagged(a) == Retagged(b)
  {
    hide ParseValue, Written, Retagged;
    RoundTrip(a);
    RoundTrip(b);
  }
}
