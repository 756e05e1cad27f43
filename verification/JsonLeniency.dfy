/** What the reader accepts beyond what the writer writes: comments, and numbers as `sscanf`
    takes them. */
module JsonLeniency {
  import opened JsonValues
  import opened JsonWriting
  import opened JsonReading
  import opened JsonRoundTrip

  // ----- comments -----

  predicate HasClosing(body: string) {
    |body| > 1 && ((body[0] == '*' && body[1] == '/') || HasClosing(body[1..]))
  }

  lemma {:induction false} CStyleCloses(body: string, rest: string)
    requires !HasClosing(body)
    ensures CStyleLength(body + "*/" + rest) == |body| + 2
  {
    var s := body + "*/" + rest;
    if body != [] {
      CStyleCloses(body[1..], rest);
      assert s[1..] == body[1..] + "*/" + rest;
    }
  }

  predicate LineEnd(c: char) { c == '\r' || c == '\n' }

  lemma {:induction false} LineCloses(body: string, end: char, rest: string)
    requires '\r' !in body && '\n' !in body && LineEnd(end)
    ensures LineLength(body + [end] + rest) == |body| + 1
  {
    var s := body + [end] + rest;
    if body != [] {
      LineCloses(body[1..], end, rest);
      assert s[1..] == body[1..] + [end] + rest;
    }
  }

  lemma CStyleToken(body: string, s: string)
    requires !HasClosing(body)
    ensures ReadToken("/*" + body + "*/" + s) == Token(Comment, "/*" + body + "*/", s)
  {
    hide CStyleLength, LineLength, HasClosing, StringAt, NumberAt, Word;
    CStyleCloses(body, s);
    var t := "/*" + body + "*/" + s;
    assert t[2..] == body + "*/" + s && t[..|body| + 4] == "/*" + body + "*/" && t[|body| + 4..] == s;
  }

  lemma LineToken(body: string, end: char, s: string)
    requires '\r' !in body && '\n' !in body && LineEnd(end)
    ensures ReadToken("//" + body + [end] + s) == Token(Comment, "//" + body + [end], s)
  {
    hide CStyleLength, LineLength, StringAt, NumberAt, Word;
    LineCloses(body, end, s);
    var t := "//" + body + [end] + s;
    assert t[2..] == body + [end] + s && t[..|body| + 3] == "//" + body + [end] && t[|body| + 3..] == s;
  }

  lemma CommentPasses(s: string)
    requires ReadToken(s).kind == Comment
    ensures ParseValue(s) == ParseValue(ReadToken(s).rest)
  {
    hide ReadToken, ParseArray, ParseMembers, DecodeNumber, DecodeString;
  }

  /** A value is read through comments of both kinds before it; one to the end of the line ends at either
      of the two line ends. */
  lemma CommentsPass(body: string, end: char, s: string)
    ensures !HasClosing(body) ==> ParseValue("/*" + body + "*/" + s) == ParseValue(s)
    ensures '\r' !in body && '\n' !in body && (end == '\r' || end == '\n') ==> ParseValue("//" + body + [end] + s) == ParseValue(s)
  {
    hide ReadToken, ParseValue, HasClosing;
    if !HasClosing(body) {
      CStyleToken(body, s);
      CommentPasses("/*" + body + "*/" + s);
    }
    if '\r' !in body && '\n' !in body && LineEnd(end) {
      LineToken(body, end, s);
      CommentPasses("//" + body + [end] + s);
    }
  }

  /** An empty array may hold blanks, but no comment. */
  lemma NoCommentInEmptyArray(body: string, tail: string)
    requires !HasClosing(body)
    ensures ParseArray("]" + tail) == Parsed(Array([]), tail)
    ensures ParseArray("/*" + body + "*/]" + tail).Failed?
  {
    hide ReadToken, HasClosing, DecodeNumber, DecodeString, ParseMembers;
    var s := "/*" + body + "*/]" + tail;
    assert s == "/*" + body + "*/" + ("]" + tail);
    CStyleToken(body, "]" + tail);
    CommentPasses(s);
    OneCharToken(']', tail);
    assert "]" + tail == [']'] + tail && ("]" + tail)[1..] == tail;
    assert SkipSpaces(s) == s && SkipSpaces("]" + tail) == "]" + tail;
    assert ParseValue("]" + tail).Failed?;
  }

  /** What follows an element of an array decides, past any comments: it goes on after a comma, ends at a
      ']', and otherwise the read fails. */
  lemma ElementThen(text: string, x: Value, after: string, read: seq<Value>)
    requires ParseValue(text + after) == Parsed(x, after)
    ensures var t := PastComments(after);
      ParseElements(text + after, read)
      == if t.kind == Comma then ParseElements(t.rest, read + [x])
         else if t.kind == ArrayEnd then Parsed(Array(read + [x]), t.rest)
         else Failed
  {
    hide ParseValue, PastComments;
  }

  /** What follows a member decides: the list goes on after a comma, or after a comment and any token
      past it other than '}'; it ends at a '}', past any comments; otherwise the read fails. */
  lemma MemberThen(key: string, text: string, x: Value, after: string, name: string, read: seq<Member>)
    requires NulFree(key) && ParseValue(text + after) == Parsed(x, after)
    ensures var t, ms := PastComments(after), SetMember(read, key, x);
      ParseMembers(Pair(key, text) + after, name, read)
      == if GoesOn(after) then ParseMembers(t.rest, key, ms)
         else if t.kind == ObjectEnd then Parsed(Object(ms), t.rest)
         else Failed
  {
    hide ParseValue, ParseMembers, Pair, SetMember, NulFree, ReadToken;
    MemberReadBack(key, text, x, after, name, read);
  }

  /** A comma before the closing brace is an error, unless the last key was empty. */
  lemma TrailingComma(key: string, text: string, x: Value, name: string, read: seq<Member>, tail: string)
    requires NulFree(key) && ParseValue(text + (",}" + tail)) == Parsed(x, ",}" + tail)
    ensures ParseMembers(Pair(key, text) + (",}" + tail), name, read)
      == if key == "" then Parsed(Object(SetMember(read, key, x)), tail) else Failed
  {
    hide ParseValue, Pair, SetMember, NulFree, ReadToken, ParseMember, DecodeString;
    var after := ",}" + tail;
    assert after == [','] + (['}'] + tail);
    OneCharToken(',', ['}'] + tail);
    OneCharToken('}', tail);
    MemberThen(key, text, x, after, name, read);
    NoComment(after);
    NoComment(['}'] + tail);
  }

  /** A character that is a token by itself, right or wrong, and does not close an object. */
  predicate StandsAlone(c: char) {
    !IsSpace(c) && !IsDigit(c) && c != '"' && c != '-' && c != 't' && c != 'f' && c != 'n' && c != '/' && c != '}'
  }

  /** So members need no comma: a comment and a character such as ';' do. */
  lemma CommaNotNeeded(key: string, text: string, x: Value, c: char, rest: string, name: string, read: seq<Member>)
    requires NulFree(key) && StandsAlone(c) && ParseValue(text + ("/**/" + [c] + rest)) == Parsed(x, "/**/" + [c] + rest)
    ensures ParseMembers(Pair(key, text) + ("/**/" + [c] + rest), name, read) == ParseMembers(rest, key, SetMember(read, key, x))
  {
    hide ParseValue, ParseMembers, Pair, SetMember, NulFree, ReadToken;
    var after := "/**/" + [c] + rest;
    CStyleToken("", [c] + rest);
    assert after == "/*" + "" + "*/" + ([c] + rest);
    AloneToken(c, rest);
    MemberThen(key, text, x, after, name, read);
  }

  lemma AloneToken(c: char, rest: string)
    requires StandsAlone(c)
    ensures ReadToken([c] + rest) == Token(SingleKind(c), [c], rest) && SingleKind(c) != ObjectEnd && SingleKind(c) != Comment
  {
    assert ([c] + rest)[1..] == rest;
  }

  // ----- doubles -----

  /** The length of the sign at the start of a text. */
  function SignLength(s: string): (n: nat)
    ensures n <= |s|
  {
    if s != [] && (s[0] == '+' || s[0] == '-') then 1 else 0
  }

  /** The number of digits at the start of a text. */
  function DigitCount(s: string): (n: nat)
    ensures n <= |s|
  {
    if s != [] && IsDigit(s[0]) then 1 + DigitCount(s[1..]) else 0
  }

  /** An exponent mark is followed by a digit, perhaps after a sign. */
  predicate ExponentFits(s: string) {
    s != [] && (s[0] == 'e' || s[0] == 'E') ==> DigitCount(s[1..][SignLength(s[1..])..]) > 0
  }

  /** Digits before or after a point, or without one, and an exponent mark that comes next is followed by
      its digits. */
  predicate UnsignedFloat(s: string) {
    var whole := DigitCount(s);
    var tail := s[whole..];
    if tail != [] && tail[0] == '.' then whole + DigitCount(tail[1..]) > 0 && FractionFits(tail[1..])
    else whole > 0 && ExponentFits(tail)
  }

  predicate FractionFits(s: string) { ExponentFits(s[DigitCount(s)..]) }

  predicate BeginsWithFloat(text: string) {
    UnsignedFloat(text[SignLength(text)..])
  }

  lemma {:induction false} DigitsScan(state: Scan, s: string)
    requires state.Whole? || state.Fraction? || state.Exponent?
    ensures Scans(state, s) == Scans(state, s[DigitCount(s)..])
  {
    if s != [] && IsDigit(s[0]) {
      DigitsScan(state, s[1..]);
      assert s[DigitCount(s)..] == s[1..][DigitCount(s[1..])..];
    }
  }

  lemma ExponentScans(s: string)
    ensures Scans(Exponent, s)
  {
    DigitsScan(Exponent, s);
    NoMoreDigits(s);
  }

  lemma OpenScansIff(s: string)
    ensures Scans(ExponentSign, s) <==> DigitCount(s) > 0
    ensures SignLength(s) == 0 ==> (Scans(ExponentMark, s) <==> DigitCount(s) > 0)
  {
    if s != [] && IsDigit(s[0]) { ExponentScans(s[1..]); }
  }

  lemma MarkScansIff(s: string)
    ensures Scans(ExponentMark, s) <==> DigitCount(s[SignLength(s)..]) > 0
  {
    hide DigitCount;
    if SignLength(s) == 0 {
      assert s[0..] == s;
      OpenScansIff(s);
    } else {
      OpenScansIff(s[1..]);
    }
  }

  /** After the digits of a whole part or a fraction. */
  lemma ExponentScansIff(s: string)
    requires s == [] || !IsDigit(s[0])
    ensures Scans(Fraction, s) == ExponentFits(s)
    ensures s == [] || s[0] != '.' ==> Scans(Whole, s) == ExponentFits(s)
  {
    hide DigitCount;
    if s != [] && (s[0] == 'e' || s[0] == 'E') { MarkScansIff(s[1..]); }
  }

  lemma {:induction false} NoMoreDigits(s: string)
    ensures var rest := s[DigitCount(s)..]; rest == [] || !IsDigit(rest[0])
  {
    if s != [] && IsDigit(s[0]) {
      NoMoreDigits(s[1..]);
      assert s[DigitCount(s)..] == s[1..][DigitCount(s[1..])..];
    }
  }

  lemma FractionScansIff(s: string)
    ensures Scans(Fraction, s) == FractionFits(s)
  {
    hide Scans, ExponentFits;
    DigitsScan(Fraction, s);
    NoMoreDigits(s);
    ExponentScansIff(s[DigitCount(s)..]);
  }

  /** After the digits of a whole part. */
  lemma PointScansIff(s: string)
    requires s == [] || !IsDigit(s[0])
    ensures Scans(Whole, s) == if s != [] && s[0] == '.' then FractionFits(s[1..]) else ExponentFits(s)
  {
    hide ExponentFits, FractionFits;
    if s != [] && s[0] == '.' {
      FractionScansIff(s[1..]);
    } else {
      ExponentScansIff(s);
    }
  }

  lemma FirstStep(s: string)
    ensures s != [] && IsDigit(s[0]) ==> Scans(Start, s) == Scans(Signed, s) == Scans(Whole, s[1..])
    ensures s != [] && s[0] == '.' ==> Scans(Start, s) == Scans(Signed, s) == Scans(LonePoint, s[1..])
    ensures s == [] || (!IsDigit(s[0]) && s[0] != '.') ==> !Scans(Signed, s) && (SignLength(s) == 0 ==> !Scans(Start, s))
    ensures SignLength(s) == 1 ==> Scans(Start, s) == Scans(Signed, s[1..])
    ensures Scans(LonePoint, s) == (DigitCount(s) > 0 && Scans(Fraction, s[1..]))
  {
  }

  lemma CountFirst(s: string)
    ensures DigitCount(s) > 0 <==> s != [] && IsDigit(s[0])
    ensures DigitCount(s) > 0 ==> s[DigitCount(s)..] == s[1..][DigitCount(s[1..])..]
  {
  }

  lemma UnsignedScansIff(s: string)
    ensures Scans(Signed, s) == UnsignedFloat(s)
    ensures SignLength(s) == 0 ==> Scans(Start, s) == UnsignedFloat(s)
  {
    hide Scans, ExponentFits, FractionFits, DigitCount, SignLength;
    FirstStep(s);
    CountFirst(s);
    var n := DigitCount(s);
    assert n == 0 ==> s[n..] == s;
    if n > 0 {
      DigitsScan(Whole, s[1..]);
      NoMoreDigits(s);
      PointScansIff(s[n..]);
    } else if s != [] && s[0] == '.' {
      FirstStep(s[1..]);
      CountFirst(s[1..]);
      LonePointScansIff(s[1..]);
    }
  }

  lemma LonePointScansIff(s: string)
    ensures Scans(LonePoint, s) == (DigitCount(s) > 0 && FractionFits(s))
  {
    hide Scans, ExponentFits, DigitCount;
    FirstStep(s);
    CountFirst(s);
    if DigitCount(s) > 0 { FractionScansIff(s[1..]); }
  }

  /** A text is read as a double if and only if it begins with a floating constant and does not leave an
      exponent open. */
  lemma ScansIff(text: string)
    ensures Scans(Start, text) <==> BeginsWithFloat(text)
  {
    hide Scans, UnsignedFloat;
    FirstStep(text);
    UnsignedScansIff(text[SignLength(text)..]);
    assert SignLength(text) == 0 ==> text[0..] == text;
  }

  /** A number token starts with a digit or a minus. */
  predicate NumberText(text: string) {
    text != [] && (IsDigit(text[0]) || text[0] == '-') && forall i :: 0 <= i < |text| ==> InNumber(text[i])
  }

  /** A number token is refused exactly when it looks like a double and is not scanned as one:
      integers of any length are read, and so is a lone minus. */
  lemma NumberFailsIff(text: string)
    requires NumberText(text)
    ensures DecodeNumber(text).None? <==> LooksDouble(text) && !Scans(Start, text)
  {
    hide Accumulated, Scans, DigitsValue;
    if !LooksDouble(text) {
      var negative := text[0] == '-';
      var digits := if negative then text[1..] else text;
      assert AllDigits(digits);
      AccumulatedIff(digits, 0, if negative then MAX_LARGEST_INT + 1 else MAX_LARGEST_UINT);
      if digits != [] {
        IntegerScans(text, digits);
      } else {
        NoDigits(0);
      }
    }
  }

  lemma IntegerScans(text: string, digits: string)
    requires digits != [] && AllDigits(digits) && (text == digits || (text != [] && text[0] == '-' && text[1..] == digits))
    ensures Scans(Start, text)
  {
    hide Scans, DigitCount;
    ScansIff(text);
    CountAll(digits);
    assert text[SignLength(text)..] == digits && digits[|digits|..] == [];
  }

  lemma {:induction false} CountAll(digits: string)
    requires AllDigits(digits)
    ensures DigitCount(digits) == |digits|
  {
    if digits != [] { CountAll(digits[1..]); }
  }

  lemma NoDigits(v: nat)
    ensures DigitsValue("", v) == v
  {
  }
}
