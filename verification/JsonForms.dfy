/** The written and the accepted forms, spelled out character by character. */
module JsonForms {
  import opened Outcomes
  import opened JsonValues
  import opened JsonWriting
  import opened JsonReading
  import opened JsonRoundTrip
  import opened JsonLeniency

  // ----- what is written -----

  /** Texts with a comma between any two. */
  function Commas(texts: seq<string>): string {
    if texts == [] then ""
    else if |texts| == 1 then texts[0]
    else texts[0] + "," + Commas(texts[1..])
  }

  lemma {:induction false} CommasLast(texts: seq<string>, t: string)
    ensures Commas(texts + [t]) == if texts == [] then t else Commas(texts) + "," + t
  {
    if |texts| == 1 {
      assert (texts + [t])[1..] == [t];
      assert texts[0] + "," + t == Commas(texts) + "," + t;
    } else if |texts| > 1 {
      CommasLast(texts[1..], t);
      assert (texts + [t])[1..] == texts[1..] + [t];
      assert texts[0] + "," + (Commas(texts[1..]) + "," + t) == texts[0] + "," + Commas(texts[1..]) + "," + t;
    }
  }

  /** The texts of the first `i` elements of an array. */
  function ElementTexts(v: Value, i: nat): seq<string>
    requires v.Array? && i <= |v.elements|
  {
    seq(i, j requires 0 <= j < i => Written(v.elements[j]))
  }

  function MemberTexts(v: Value, i: nat): seq<string>
    requires v.Object? && i <= |v.members|
  {
    seq(i, j requires 0 <= j < i => Quoted(CString(v.members[j].key)) + ":" + Written(v.members[j].value))
  }

  lemma {:induction false} ElementsJoin(v: Value, i: nat)
    requires v.Array? && i <= |v.elements|
    ensures Commas(ElementTexts(v, i)) + ElementsFrom(v, i) == Commas(ElementTexts(v, |v.elements|))
    decreases |v.elements| - i
  {
    hide Written, Commas;
    if i == |v.elements| {
      assert Commas(ElementTexts(v, i)) + "" == Commas(ElementTexts(v, i));
    } else {
      ElementsJoin(v, i + 1);
      assert ElementTexts(v, i + 1) == ElementTexts(v, i) + [Written(v.elements[i])];
      CommasLast(ElementTexts(v, i), Written(v.elements[i]));
      CommasNone();
      JoinStep(Commas(ElementTexts(v, i)), Written(v.elements[i]), ElementsFrom(v, i + 1), i);
    }
  }

  lemma {:induction false} MembersJoin(v: Value, i: nat)
    requires v.Object? && i <= |v.members|
    ensures Commas(MemberTexts(v, i)) + MembersFrom(v, i) == Commas(MemberTexts(v, |v.members|))
    decreases |v.members| - i
  {
    hide Written, Commas, Quoted, CString;
    if i == |v.members| {
      assert Commas(MemberTexts(v, i)) + "" == Commas(MemberTexts(v, i));
    } else {
      MembersJoin(v, i + 1);
      var m := v.members[i];
      var text := Quoted(CString(m.key)) + ":" + Written(m.value);
      assert MemberTexts(v, i + 1) == MemberTexts(v, i) + [text];
      CommasLast(MemberTexts(v, i), text);
      CommasNone();
      JoinStep(Commas(MemberTexts(v, i)), text, MembersFrom(v, i + 1), i);
    }
  }

  lemma CommasNone()
    ensures Commas([]) == ""
  {
  }

  lemma JoinStep(before: string, text: string, after: string, i: nat)
    requires i == 0 ==> before == ""
    ensures before + ((if i > 0 then "," else "") + text + after) == (if i == 0 then text else before + "," + text) + after
  {
    if i == 0 {
      assert "" + text == text && before + (text + after) == text + after;
    }
  }

  /** Constants as words, strings in quotes, arrays and objects with a comma between any two parts. */
  lemma WrittenForms(v: Value)
    ensures v.Null? ==> Written(v) == "null"
    ensures v.Bool? ==> Written(v) == if v.b then "true" else "false"
    ensures v.Int? ==> Written(v) == if v.i < 0 then "-" + Decimal(-v.i) else Decimal(v.i)
    ensures v.UInt? ==> Written(v) == Decimal(v.u)
    ensures v.String? ==> Written(v) == Quoted(CString(v.s))
    ensures v.Array? ==> Written(v) == "[" + Commas(ElementTexts(v, |v.elements|)) + "]"
    ensures v.Object? ==> Written(v) == "{" + Commas(MemberTexts(v, |v.members|)) + "}"
  {
    hide Commas, Quoted, CString, Decimal;
    CommasNone();
    match v
    case Array(_) =>
      ElementsJoin(v, 0);
      assert ElementTexts(v, 0) == [];
      assert "" + ElementsFrom(v, 0) == ElementsFrom(v, 0);
    case Object(_) =>
      MembersJoin(v, 0);
      assert MemberTexts(v, 0) == [];
      assert "" + MembersFrom(v, 0) == MembersFrom(v, 0);
    case _ =>
  }

  /** Numbers are written with the digits '0' to '9', the first of them not '0' unless it is the only one. */
  lemma {:induction false} DecimalForm(n: nat)
    ensures |Decimal(n)| > 0 && (Decimal(n)[0] == '0' ==> n == 0)
    ensures forall i :: 0 <= i < |Decimal(n)| ==> '0' <= Decimal(n)[i] <= '9'
  {
    if n >= 10 { DecimalForm(n / 10); }
  }

  /** The seven short escapes, four upper-case hexadecimal digits for other control characters, and all
      other characters as they are. */
  lemma EscapedForms(c: char)
    ensures Escaped('"') == ['\\', '"'] && Escaped('\\') == ['\\', '\\']
    ensures Escaped(8 as char) == ['\\', 'b'] && Escaped(12 as char) == ['\\', 'f']
    ensures Escaped(10 as char) == ['\\', 'n'] && Escaped(13 as char) == ['\\', 'r'] && Escaped(9 as char) == ['\\', 't']
    ensures Escaped(1 as char) == ['\\', 'u', '0', '0', '0', '1'] && Escaped(0x1f as char) == ['\\', 'u', '0', '0', '1', 'F']
    ensures Escaped(0xb as char) == ['\\', 'u', '0', '0', '0', 'B']
    ensures c >= ' ' && c != '"' && c != '\\' ==> Escaped(c) == [c]
  {
  }

  /** Text without quotes, backslashes and control characters is written as it is. */
  lemma {:induction false} PlainIsQuoted(s: string)
    requires forall i :: 0 <= i < |s| ==> s[i] >= ' ' && s[i] != '"' && s[i] != '\\'
    ensures Quoted(s) == "\"" + s + "\""
  {
    hide Escaped;
    if s != [] {
      PlainIsQuoted(s[1..]);
      EscapedForms(s[0]);
      var inner := AllEscaped(s[1..]);
      assert inner == (("\"" + inner) + "\"")[1..|inner| + 1] == s[1..] by {
        assert |inner| == |s[1..]|;
      }
      assert AllEscaped(s) == [s[0]] + s[1..] == s;
    }
  }

  /** Keys that agree up to `i`, where the smaller one ends or has the smaller character. */
  predicate DifferAt(a: string, b: string, i: nat) {
    i <= |a| && i < |b| && a[..i] == b[..i] && (i == |a| || a[i] < b[i])
  }

  lemma DifferLater(a: string, b: string, i: nat)
    requires a != [] && b != []
    ensures DifferAt(a, b, 0) <==> a[0] < b[0]
    ensures i > 0 ==> (DifferAt(a, b, i) <==> a[0] == b[0] && DifferAt(a[1..], b[1..], i - 1))
  {
    assert a[..0] == b[..0];
    if 0 < i <= |a| && i < |b| {
      assert a[..i] == [a[0]] + a[1..][..i - 1] && b[..i] == [b[0]] + b[1..][..i - 1];
      assert a[..i][0] == a[0] && b[..i][0] == b[0] && a[..i][1..] == a[1..][..i - 1] && b[..i][1..] == b[1..][..i - 1];
    }
  }

  /** The order of members: at the first place where keys differ the smaller has the smaller character,
      or has ended. */
  lemma {:induction false} KeyLessIff(a: string, b: string)
    ensures KeyLess(a, b) <==> exists i: nat :: DifferAt(a, b, i)
  {
    if a != [] && b != [] {
      KeyLessIff(a[1..], b[1..]);
      KeysAfterFirst(a, b);
    } else if b != [] {
      assert DifferAt(a, b, 0);
    }
  }

  lemma KeysAfterFirst(a: string, b: string)
    requires a != [] && b != []
    ensures (exists i: nat :: DifferAt(a, b, i)) <==> a[0] < b[0] || (a[0] == b[0] && exists i: nat :: DifferAt(a[1..], b[1..], i))
  {
    hide DifferAt;
    DifferLater(a, b, 0);
    if a[0] == b[0] && exists i: nat :: DifferAt(a[1..], b[1..], i) {
      var i: nat :| DifferAt(a[1..], b[1..], i);
      DifferLater(a, b, i + 1);
    }
    if exists i: nat :: DifferAt(a, b, i) {
      var i: nat :| DifferAt(a, b, i);
      DifferLater(a, b, i);
      if i > 0 {
        var j := i - 1;
        assert DifferAt(a[1..], b[1..], j);
      }
    }
  }

  // ----- what is read -----

  /** The eight escapes of two characters. */
  lemma EscapesRead()
    ensures DecodeChars(['\\', '"']) == Some(['"']) && DecodeChars(['\\', '/']) == Some(['/'])
    ensures DecodeChars(['\\', '\\']) == Some(['\\']) && DecodeChars(['\\', 'b']) == Some([8 as char])
    ensures DecodeChars(['\\', 'f']) == Some([12 as char]) && DecodeChars(['\\', 'n']) == Some([10 as char])
    ensures DecodeChars(['\\', 'r']) == Some([13 as char]) && DecodeChars(['\\', 't']) == Some([9 as char])
  {
    EscapeReads('"', '"');
    EscapeReads('/', '/');
    EscapeReads('\\', '\\');
    EscapeReads('b', 8 as char);
    EscapeReads('f', 12 as char);
    EscapeReads('n', 10 as char);
    EscapeReads('r', 13 as char);
    EscapeReads('t', 9 as char);
  }

  lemma EscapeReads(c: char, d: char)
    requires c != 'u' && SimpleEscape(c) == Some(d)
    ensures DecodeChars(['\\', c]) == Some([d])
  {
    var s := ['\\', c];
    assert s[2..] == [] && [d] + "" == [d];
  }

  /** Any other character after a backslash, apart from 'u', is an error. */
  lemma OtherEscapesFail(c: char, rest: string)
    requires c != '"' && c != '/' && c != '\\' && c != 'b' && c != 'f' && c != 'n' && c != 'r' && c != 't' && c != 'u'
    ensures DecodeChars(['\\', c] + rest).None?
  {
  }

  /** Hexadecimal digits of both cases have their values, and no other character has one. */
  lemma HexDigitsRead(c: char)
    ensures HexValue('0') == 0 && HexValue('9') == 9 && HexValue('a') == HexValue('A') == 10 && HexValue('f') == HexValue('F') == 15
    ensures '0' <= c <= '9' ==> HexValue(c) == c as int - 48
    ensures 'a' <= c <= 'f' ==> HexValue(c) == c as int - 87
    ensures 'A' <= c <= 'F' ==> HexValue(c) == c as int - 55
    ensures !('0' <= c <= '9' || 'a' <= c <= 'f' || 'A' <= c <= 'F') ==> HexValue(c) == -1
  {
  }

  /** A high surrogate without another escape after it is an error. */
  lemma LoneSurrogateFails(high: nat, rest: string)
    requires 0xD800 <= high <= 0xDBFF && (|rest| < 6 || rest[0] != '\\' || rest[1] != 'u')
    ensures DecodeChars("\\u" + HexDigits(high) + rest).None?
  {
    hide HexFour, HexDigits;
    var s := "\\u" + HexDigits(high) + rest;
    HexLength(high);
    HexFourReads(high, rest);
    assert s[2..] == HexDigits(high) + rest;
    if |rest| >= 2 { assert s[2..][4] == rest[0] && s[2..][5] == rest[1]; }
  }

  lemma {:induction false} BlanksSkip(w: string, s: string)
    requires forall i :: 0 <= i < |w| ==> w[i] == ' ' || w[i] == '\t' || w[i] == '\r' || w[i] == '\n'
    ensures SkipSpaces(w + s) == SkipSpaces(s)
  {
    if w == [] {
      assert w + s == s;
    } else {
      BlanksSkip(w[1..], s);
      assert (w + s)[1..] == w[1..] + s;
    }
  }

  /** Blanks, tabs and line ends before a value are passed over. */
  lemma BlanksPass(w: string, s: string)
    requires forall i :: 0 <= i < |w| ==> w[i] == ' ' || w[i] == '\t' || w[i] == '\r' || w[i] == '\n'
    ensures ReadToken(w + s) == ReadToken(s) && ParseValue(w + s) == ParseValue(s)
  {
    hide FirstToken, SkipSpaces, DecodeNumber, DecodeString, ParseArray, ParseMembers;
    BlanksSkip(w, s);
  }

  /** The bounds at which the kind of a number changes. */
  lemma IntegerKinds(n: nat)
    ensures DecodeNumber(Decimal(n)) == Some(
      if n <= 2147483647 then Int(n) else if n <= 18446744073709551615 then UInt(n) else Real(Decimal(n)))
    ensures DecodeNumber("-" + Decimal(n)) == Some(if n <= 9223372036854775808 then Int(0 - n) else Real("-" + Decimal(n)))
  {
    hide Decimal, Accumulated, DigitsValue, Scans;
    var d := Decimal(n);
    DecimalValue(n);
    AccumulatedIff(d, 0, MAX_LARGEST_UINT);
    AccumulatedIff(d, 0, MAX_LARGEST_INT + 1);
    IntegerScans(d, d);
    var negative := "-" + d;
    assert negative[1..] == d && negative[0] == '-';
    IntegerScans(negative, d);
    assert !LooksDouble(d) && !LooksDouble(negative);
  }

  predicate FloatChar(c: char) {
    '0' <= c <= '9' || c == '.' || c == 'e' || c == 'E' || c == '+' || c == '-'
  }

  lemma {:induction false} FloatLength(text: string, tail: string)
    requires (forall i :: 0 <= i < |text| ==> FloatChar(text[i])) && (tail == [] || !FloatChar(tail[0]))
    ensures NumberLength(text + tail) == |text|
  {
    if text == [] {
      assert text + tail == tail;
    } else {
      FloatLength(text[1..], tail);
      assert (text + tail)[1..] == text[1..] + tail;
    }
  }

  /** A floating constant with a point or an exponent is read whole, as a double. */
  lemma FloatReads(text: string, tail: string)
    requires text != [] && ('0' <= text[0] <= '9' || text[0] == '-') && BeginsWithFloat(text)
    requires forall i :: 0 <= i < |text| ==> FloatChar(text[i])
    requires exists i :: 0 <= i < |text| && (text[i] == '.' || text[i] == 'e' || text[i] == 'E')
    requires tail == [] || !FloatChar(tail[0])
    ensures ParseValue(text + tail) == Parsed(Real(text), tail)
  {
    hide ReadToken, BeginsWithFloat, ParseArray, ParseMembers, DecodeString, DecodeNumber, FloatChar;
    FloatToken(text, tail);
    FloatDecodes(text);
    NoComment(text + tail);
  }

  lemma FloatToken(text: string, tail: string)
    requires text != [] && ('0' <= text[0] <= '9' || text[0] == '-')
    requires (forall i :: 0 <= i < |text| ==> FloatChar(text[i])) && (tail == [] || !FloatChar(tail[0]))
    ensures ReadToken(text + tail) == Token(NumberToken, text, tail)
  {
    hide NumberLength, StringAt, Word, CommentAt;
    var s := text + tail;
    FloatLength(text[1..], tail);
    assert s[1..] == text[1..] + tail && s[..|text|] == text && s[|text|..] == tail;
    assert SkipSpaces(s) == s;
  }

  lemma FloatDecodes(text: string)
    requires text != [] && BeginsWithFloat(text)
    requires exists i :: 0 <= i < |text| && (text[i] == '.' || text[i] == 'e' || text[i] == 'E')
    ensures DecodeNumber(text) == Some(Real(text))
  {
    hide Scans, BeginsWithFloat, Accumulated;
    ScansIff(text);
    var i :| 0 <= i < |text| && (text[i] == '.' || text[i] == 'e' || text[i] == 'E');
    assert InNumber(text[i]) && !IsDigit(text[i]);
  }
}
