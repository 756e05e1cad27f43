/** The reader that moves a cursor over a document. */
module JsonReader {
  import opened Outcomes
  import opened JsonValues
  import opened JsonWriting
  import opened JsonReading
  import opened JsonRoundTrip
  import opened JsonReadable

  /** An integer within range, else a double, if the text can be scanned as one. */
  method DecodeNumberText(text: string) returns (v: Option<Value>)
    requires text != []
    ensures v == DecodeNumber(text)
  {
    hide Accumulated, Scans;
    var isDouble := false;
    for i := 0 to |text|
      invariant isDouble <==> exists j :: 0 <= j < i && InNumber(text[j]) && !IsDigit(text[j]) && (text[j] == '-' ==> j > 0)
    {
      isDouble := isDouble || (InNumber(text[i]) && !IsDigit(text[i]) && (text[i] == '-' ==> i > 0));
    }
    if isDouble {
      return DecodeDouble(text);
    }
    var negative := text[0] == '-';
    var digits := if negative then text[1..] else text;
    var n := Accumulate(digits, if negative then MAX_LARGEST_INT + 1 else MAX_LARGEST_UINT);
    match n
    case NotANumber => v := None;
    case TooLarge => v := DecodeDouble(text);
    case Within(value) => v := Some(if negative then Int(0 - value) else Integer(value));
  }

  method Accumulate(digits: string, max: nat) returns (r: Accumulation)
    ensures r == Accumulated(digits, 0, max)
  {
    var threshold, i := max / 10, 0;
    var value: nat := 0;
    assert digits[0..] == digits;
    while i < |digits|
      invariant i <= |digits| && Accumulated(digits[i..], value, max) == Accumulated(digits, 0, max)
    {
      var c := digits[i];
      assert digits[i..][1..] == digits[i + 1..];
      i := i + 1;
      if !IsDigit(c) {
        return NotANumber;
      }
      var digit := DigitOf(c);
      if value >= threshold {
        if value > threshold || i != |digits| || digit > max % 10 {
          return TooLarge;
        }
      }
      value := value * 10 + digit;
    }
    r := Within(value);
  }

  lemma BeforeTwice(a: string, b: string, r: Option<string>)
    ensures Before("", r) == r && Before(a, Before(b, r)) == Before(a + b, r)
  {
    if r.Some? { assert "" + r.value == r.value && a + (b + r.value) == (a + b) + r.value; }
  }

  lemma BeforeEnd(a: string)
    ensures Before(a, Some("")) == Some(a) && Before(a, None) == None
  {
    assert a + "" == a;
  }

  method DecodeStringText(text: string) returns (r: Option<string>)
    requires |text| >= 2
    ensures r == DecodeString(text)
  {
    hide CodePoint, Utf8, SimpleEscape, Before;
    var body := text[1..|text| - 1];
    var decoded, i := "", 0;
    assert body[0..] == body;
    BeforeTwice("", "", DecodeChars(body));
    while i != |body|
      invariant i <= |body| && Before(decoded, DecodeChars(body[i..])) == DecodeChars(body)
      decreases |body| - i
    {
      ghost var s := body[i..];
      BeforeEnd(decoded);
      var c := body[i];
      i := i + 1;
      assert s[1..] == body[i..];
      if c == '"' {
        break;
      } else if c == '\\' {
        if i == |body| {
          return None;
        }
        var escape := body[i];
        i := i + 1;
        assert s[2..] == body[i..];
        if escape == 'u' {
          var (cp, n) := CodePoint(body[i..]);
          if cp < 0 {
            return None;
          }
          assert s[2 + n..] == body[i + n..];
          BeforeTwice(decoded, Utf8(cp), DecodeChars(body[i + n..]));
          decoded := decoded + Utf8(cp);
          i := i + n;
        } else {
          match SimpleEscape(escape) {
            case None =>
              return None;
            case Some(e) =>
              BeforeTwice(decoded, [e], DecodeChars(body[i..]));
              decoded := decoded + [e];
          }
        }
      } else {
        BeforeTwice(decoded, [c], DecodeChars(body[i..]));
        decoded := decoded + [c];
      }
    }
    BeforeEnd(decoded);
    r := Some(decoded);
  }

  class Reader {
    const document: string
    var current: nat

    ghost predicate Valid()
      reads this
    {
      current <= |document|
    }

    ghost function Rest(): string
      requires Valid()
      reads this
    {
      document[current..]
    }

    constructor (text: string)
      ensures Valid() && document == text && Rest() == text
    {
      document := text;
      current := 0;
    }

    method GetNextChar() returns (c: char)
      requires Valid()
      modifies this
      ensures Valid()
      ensures old(Rest()) == [] ==> c == NUL && current == old(current)
      ensures old(Rest()) != [] ==> c == old(Rest())[0] && current == old(current) + 1 && Rest() == old(Rest())[1..]
    {
      if current == |document| {
        return NUL;
      }
      c := document[current];
      current := current + 1;
    }

    method SkipBlanks()
      requires Valid()
      modifies this
      ensures Valid() && current >= old(current) && Rest() == SkipSpaces(old(Rest()))
    {
      while current != |document|
        invariant Valid() && current >= old(current)
        invariant SkipSpaces(Rest()) == SkipSpaces(old(Rest()))
        decreases |document| - current
      {
        if !IsSpace(document[current]) {
          break;
        }
        assert Rest()[1..] == document[current + 1..];
        current := current + 1;
      }
    }

    method ReadNumber()
      requires Valid()
      modifies this
      ensures Valid() && current == old(current) + NumberLength(old(Rest()))
    {
      while current != |document|
        invariant Valid() && current >= old(current)
        invariant current - old(current) + NumberLength(Rest()) == NumberLength(old(Rest()))
        decreases |document| - current
      {
        if !InNumber(document[current]) {
          break;
        }
        assert Rest()[1..] == document[current + 1..];
        current := current + 1;
      }
    }

    method ReadString() returns (ok: bool)
      requires Valid()
      modifies this
      ensures Valid() && current >= old(current) && ok == (StringLength(old(Rest())) != -1)
      ensures current == if ok then old(current) + StringLength(old(Rest())) else |document|
    {
      var c := NUL;
      ghost var all := StringLength(Rest());
      while current != |document|
        invariant Valid() && current >= old(current) && c != '"'
        invariant StringLength(Rest()) == -1 <==> all == -1
        invariant all != -1 ==> all == current - old(current) + StringLength(Rest())
        decreases |document| - current
      {
        ghost var before := Rest();
        c := GetNextChar();
        if c == '\\' {
          var escaped := GetNextChar();
          assert |before| >= 2 ==> Rest() == before[2..];
        } else if c == '"' {
          break;
        }
      }
      ok := c == '"';
    }

    method Match(word: string) returns (ok: bool)
      requires Valid()
      modifies this
      ensures Valid() && current >= old(current) && ok == (word <= old(Rest()))
      ensures current == if ok then old(current) + |word| else old(current)
    {
      ok := |document| - current >= |word| && document[current..current + |word|] == word;
      if ok {
        assert word == Rest()[..|word|];
        current := current + |word|;
      }
    }

    method NextToken() returns (kind: Kind, text: string)
      requires Valid()
      modifies this
      ensures Valid() && current >= old(current)
      ensures Token(kind, text, Rest()) == ReadToken(old(Rest()))
      ensures kind != EndOfStream ==> current > old(current)
    {
      hide StringLength, NumberLength, SkipSpaces, FirstToken;
      SkipBlanks();
      if current == |document| {
        return EndOfStream, "";
      }
      kind, text := TokenHere();
    }

    method TokenHere() returns (kind: Kind, text: string)
      requires Valid() && Rest() != []
      modifies this
      ensures Valid() && current > old(current)
      ensures Token(kind, text, Rest()) == FirstToken(old(Rest()))
    {
      hide StringLength, NumberLength, StringAt, NumberAt, Word, CommentAt;
      var c := document[current];
      if c == '"' {
        kind, text := StringHere();
      } else if IsDigit(c) || c == '-' {
        kind, text := NumberHere();
      } else if c == 't' {
        kind, text := WordHere("true", TrueToken);
      } else if c == 'f' {
        kind, text := WordHere("false", FalseToken);
      } else if c == 'n' {
        kind, text := WordHere("null", NullToken);
      } else if c == '/' {
        kind, text := CommentHere();
      } else {
        c := GetNextChar();
        kind, text := SingleKind(c), [c];
      }
    }

    method StringHere() returns (kind: Kind, text: string)
      requires Valid() && Rest() != []
      modifies this
      ensures Valid() && current > old(current)
      ensures Token(kind, text, Rest()) == StringAt(old(Rest()))
    {
      hide StringLength;
      var start := current;
      var quote := GetNextChar();
      var ok := ReadString();
      kind := if ok then StringToken else BadToken;
      text := document[start..current];
    }

    method NumberHere() returns (kind: Kind, text: string)
      requires Valid() && Rest() != []
      modifies this
      ensures Valid() && current > old(current)
      ensures Token(kind, text, Rest()) == NumberAt(old(Rest()))
    {
      hide NumberLength;
      var start := current;
      var first := GetNextChar();
      ReadNumber();
      kind := NumberToken;
      text := document[start..current];
    }

    method WordHere(word: string, wordKind: Kind) returns (kind: Kind, text: string)
      requires Valid() && Rest() != [] && word != [] && Rest()[0] == word[0]
      modifies this
      ensures Valid() && current > old(current)
      ensures Token(kind, text, Rest()) == Word(old(Rest()), word, wordKind)
    {
      var start := current;
      var first := GetNextChar();
      var ok := Match(word[1..]);
      WordAfterFirst(document[start..], word);
      kind := if ok then wordKind else BadToken;
      text := document[start..current];
    }

    method CommentHere() returns (kind: Kind, text: string)
      requires Valid() && Rest() != []
      modifies this
      ensures Valid() && current > old(current)
      ensures Token(kind, text, Rest()) == CommentAt(old(Rest()))
    {
      hide CStyleLength, LineLength;
      var start := current;
      var slash := GetNextChar();
      var c := GetNextChar();
      assert |document[start..]| > 1 ==> document[start..][2..] == Rest();
      var ok := false;
      if c == '*' {
        ok := ReadCStyleComment();
      } else if c == '/' {
        ReadCppStyleComment();
        ok := true;
      }
      kind := if ok then Comment else BadToken;
      text := document[start..current];
    }

    method ReadCStyleComment() returns (ok: bool)
      requires Valid()
      modifies this
      ensures Valid() && current >= old(current) && ok == (CStyleLength(old(Rest())) != -1)
      ensures current == if ok then old(current) + CStyleLength(old(Rest())) else |document|
    {
      ghost var all := CStyleLength(Rest());
      while current != |document|
        invariant Valid() && current >= old(current)
        invariant CStyleLength(Rest()) == -1 <==> all == -1
        invariant all != -1 ==> all == current - old(current) + CStyleLength(Rest())
        decreases |document| - current
      {
        ghost var before := Rest();
        var c := GetNextChar();
        if c == '*' && current < |document| && document[current] == '/' {
          assert before[1] == '/';
          break;
        }
      }
      var last := GetNextChar();
      ok := last == '/';
    }

    method ReadCppStyleComment()
      requires Valid()
      modifies this
      ensures Valid() && current == old(current) + LineLength(old(Rest()))
    {
      while current != |document|
        invariant Valid() && current >= old(current)
        invariant current - old(current) + LineLength(Rest()) == LineLength(old(Rest()))
        decreases |document| - current
      {
        var c := GetNextChar();
        if c == '\r' || c == '\n' {
          return;
        }
      }
    }

    method SkipCommentTokens() returns (kind: Kind, text: string)
      requires Valid()
      modifies this
      ensures Valid() && current >= old(current)
      ensures Token(kind, text, Rest()) == PastComments(old(Rest()))
      ensures kind != EndOfStream ==> current > old(current)
    {
      hide ReadToken;
      kind, text := NextToken();
      while kind == Comment
        invariant Valid() && current >= old(current) && (kind != EndOfStream ==> current > old(current))
        invariant PastComments(old(Rest())) == if kind == Comment then PastComments(Rest()) else Token(kind, text, Rest())
        decreases kind == Comment, |document| - current
      {
        kind, text := NextToken();
      }
    }

    /** Whether the result of a read is the parse `p`, with the cursor after it. */
    ghost predicate Has(p: Parsed, ok: bool, v: Value)
      reads this
    {
      Valid() && ok == p.Parsed? && (ok ==> v == p.value && Rest() == p.rest)
    }

    method Parse() returns (ok: bool, root: Value)
      requires Valid() && current == 0
      modifies this
      ensures ok == ParseValue(document).Parsed? && (ok ==> root == ParseValue(document).value)
    {
      hide ParseValue, PastComments;
      ok, root := ReadValue();
      var kind, text := SkipCommentTokens();
    }

    method ReadValue() returns (ok: bool, v: Value)
      requires Valid()
      modifies this
      ensures Has(ParseValue(old(Rest())), ok, v) && current >= old(current)
      decreases |document| - current, 0
    {
      hide PastComments, DecodeNumber, DecodeString, ParseArray, ParseMembers;
      ok, v := false, Null;
      var kind, text := SkipCommentTokens();
      match kind
      case ObjectBegin => ok, v := ReadObject();
      case ArrayBegin => ok, v := ReadArray();
      case NumberToken =>
        var n := DecodeNumberText(text);
        if n.Some? { ok, v := true, n.value; }
      case StringToken =>
        var d := DecodeStringText(text);
        if d.Some? { ok, v := true, String(CString(d.value)); }
      case TrueToken => ok, v := true, Bool(true);
      case FalseToken => ok, v := true, Bool(false);
      case NullToken => ok, v := true, Null;
      case _ =>
    }

    method ReadArray() returns (ok: bool, v: Value)
      requires Valid()
      modifies this
      ensures Has(ParseArray(old(Rest())), ok, v) && current >= old(current)
      decreases |document| - current, 2
    {
      hide ReadToken, ParseValue, SkipSpaces;
      SkipBlanks();
      if current < |document| && document[current] == ']' {
        CloseArray(Rest());
        var kind, text := NextToken();
        return true, Array([]);
      }
      ok, v := ReadElements();
    }

    method ReadElements() returns (ok: bool, v: Value)
      requires Valid()
      modifies this
      ensures Has(ParseElements(old(Rest()), []), ok, v) && current >= old(current)
      decreases |document| - current, 1
    {
      hide PastComments, ParseValue;
      var elements: seq<Value> := [];
      ok, v := false, Null;
      var more := true;
      while more
        invariant Valid() && current >= old(current)
        invariant more ==> ParseElements(Rest(), elements) == ParseElements(old(Rest()), [])
        invariant !more ==> Has(ParseElements(old(Rest()), []), ok, v)
        decreases more, |document| - current
      {
        var x;
        ok, x := ReadValue();
        if ok {
          elements := elements + [x];
          var kind, text := SkipCommentTokens();
          if kind == ArrayEnd {
            v, more := Array(elements), false;
          } else if kind != Comma {
            ok, more := false, false;
          }
        } else {
          more := false;
        }
      }
    }

    method ReadObject() returns (ok: bool, v: Value)
      requires Valid()
      modifies this
      ensures Has(ParseMembers(old(Rest()), "", []), ok, v) && current >= old(current)
      decreases |document| - current, 2
    {
      hide PastComments, ParseValue, DecodeString, ParseMember;
      var members: seq<Member> := [];
      var name := "";
      ok, v := false, Null;
      var more := true;
      while more
        invariant Valid() && current >= old(current)
        invariant more ==> ParseMembers(Rest(), name, members) == ParseMembers(old(Rest()), "", [])
        invariant !more ==> Has(ParseMembers(old(Rest()), "", []), ok, v)
        decreases more, |document| - current
      {
        var kind, text := SkipCommentTokens();
        if kind == ObjectEnd && name == "" {
          return true, Object(members);
        }
        more, ok := false, false;
        if kind == StringToken {
          var key := DecodeStringText(text);
          if key.Some? {
            name := key.value;
            ok, more, members := ReadMember(name, members);
            v := Object(members);
          }
        }
      }
    }

    /** From the colon to the token after the value. */
    method ReadMember(name: string, members: seq<Member>) returns (ok: bool, more: bool, members': seq<Member>)
      requires Valid()
      modifies this
      ensures Valid() && current >= old(current) && (more ==> ok && current > old(current))
      ensures !ok ==> ParseMember(old(Rest()), name, members).Failed?
      ensures more ==> ParseMember(old(Rest()), name, members) == ParseMembers(Rest(), name, members')
      ensures ok && !more ==> ParseMember(old(Rest()), name, members) == Parsed(Object(members'), Rest())
      ensures var colon := ReadToken(old(Rest()));
        && (more <==> colon.kind == Colon && ParseValue(colon.rest).Parsed? && GoesOn(ParseValue(colon.rest).rest))
        && (ok ==>
              forall k :: Lookup(members', k) ==
                if k == CString(name) then Some(ParseValue(colon.rest).value) else Lookup(members, k))
      decreases |document| - current, 1
    {
      hide ReadToken, ParseValue, ParseMembers, SetMember, Lookup;
      ok, more, members' := false, false, members;
      var colon, text := NextToken();
      if colon == Colon {
        var x;
        ok, x := ReadValue();
        if ok {
          members' := SetMember(members, CString(name), x);
          forall k { SetMemberLookup(members, CString(name), x, k); }
          var kind, t := NextToken();
          ok := kind == ObjectEnd || kind == Comma || kind == Comment;
          if kind == Comment {
            kind, t := SkipCommentTokens();
          }
          more := ok && kind != ObjectEnd;
        }
      }
    }
  }

  lemma CloseArray(s: string)
    requires s != [] && s[0] == ']'
    ensures ReadToken(s) == Token(ArrayEnd, "]", s[1..])
  {
    assert SkipSpaces(s) == s;
  }

  lemma WordAfterFirst(s: string, word: string)
    requires |word| > 0 && s != [] && s[0] == word[0]
    ensures word[1..] <= s[1..] <==> word <= s
  {
    assert s == [s[0]] + s[1..] && word == [word[0]] + word[1..];
    if word <= s { assert s[1..][..|word| - 1] == s[..|word|][1..]; }
    if word[1..] <= s[1..] { assert s[..|word|] == [s[0]] + s[1..][..|word| - 1]; }
  }

  /** Writing a value and reading the text gives it back, its integers tagged by size. */
  method WriteThenRead(v: Value) returns (ok: bool, root: Value)
    requires Storable(v)
    ensures ok && root == Retagged(v)
  {
    hide Written, ParseValue, Retagged, Storable;
    var writer := new FastWriter();
    var text := writer.Write(v);
    var reader := new Reader(text);
    ok, root := reader.Parse();
    RoundTrip(v);
  }
}
