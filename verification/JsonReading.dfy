/** Reading JSON text: tokens, strings, numbers, and values. */
module JsonReading {
  import opened Outcomes
  import opened JsonValues
  import opened JsonWriting

  // ----- tokens -----

  datatype Kind =
    | ObjectBegin | ObjectEnd | ArrayBegin | ArrayEnd | StringToken | NumberToken
    | TrueToken | FalseToken | NullToken | Comma | Colon | Comment | EndOfStream | BadToken

  /** A token: its text, and the input after it. */
  datatype Token = Token(kind: Kind, text: string, rest: string)

  predicate IsSpace(c: char) {
    c == ' ' || c == '\t' || c == '\r' || c == '\n'
  }

  predicate IsDigit(c: char) {
    '0' <= c <= '9'
  }

  predicate InNumber(c: char) {
    IsDigit(c) || c == '.' || c == 'e' || c == 'E' || c == '+' || c == '-'
  }

  function SkipSpaces(s: string): (r: string)
    ensures |r| <= |s|
  {
    if s != [] && IsSpace(s[0]) then SkipSpaces(s[1..]) else s
  }

  function NumberLength(s: string): (n: nat)
    ensures n <= |s|
  {
    if s != [] && InNumber(s[0]) then 1 + NumberLength(s[1..]) else 0
  }

  /** The characters of a string up to and with its closing quote, or -1 without one. */
  function StringLength(s: string): (n: int)
    ensures n == -1 || 0 < n <= |s|
  {
    if s == [] then -1
    else if s[0] == '"' then 1
    else
      var k := if s[0] == '\\' then 2 else 1;
      if k > |s| then -1
      else var n := StringLength(s[k..]); if n == -1 then -1 else k + n
  }

  function Word(s: string, word: string, kind: Kind): Token
    requires |s| > 0 && |word| > 0
  {
    if word <= s then Token(kind, word, s[|word|..]) else Token(BadToken, s[..1], s[1..])
  }

  function StringAt(s: string): Token
    requires |s| > 0
  {
    var n := StringLength(s[1..]);
    if n == -1 then Token(BadToken, s, "") else Token(StringToken, s[..n + 1], s[n + 1..])
  }

  function NumberAt(s: string): Token
    requires |s| > 0
  {
    var n := NumberLength(s[1..]);
    Token(NumberToken, s[..n + 1], s[n + 1..])
  }

  /** The characters of a comment after its opening, up to and with the closing mark, or -1. */
  function CStyleLength(s: string): (n: int)
    ensures n == -1 || 0 < n <= |s|
  {
    if |s| < 2 then -1
    else if s[0] == '*' && s[1] == '/' then 2
    else var n := CStyleLength(s[1..]); if n == -1 then -1 else 1 + n
  }

  /** The characters up to and with the end of the line. */
  function LineLength(s: string): (n: nat)
    ensures n <= |s|
  {
    if s == [] then 0 else if s[0] == '\r' || s[0] == '\n' then 1 else 1 + LineLength(s[1..])
  }

  function CommentAt(s: string): Token
    requires |s| > 0
  {
    if |s| == 1 then Token(BadToken, s, "")
    else if s[1] == '*' then
      var n := CStyleLength(s[2..]);
      if n == -1 then Token(BadToken, s, "") else Token(Comment, s[..2 + n], s[2 + n..])
    else if s[1] == '/' then
      var n := LineLength(s[2..]);
      Token(Comment, s[..2 + n], s[2 + n..])
    else Token(BadToken, s[..2], s[2..])
  }

  function SingleKind(c: char): Kind {
    if c == '{' then ObjectBegin else if c == '}' then ObjectEnd
    else if c == '[' then ArrayBegin else if c == ']' then ArrayEnd
    else if c == ',' then Comma else if c == ':' then Colon
    else if c == NUL then EndOfStream
    else BadToken
  }

  function FirstToken(s: string): (t: Token)
    requires |s| > 0
  {
    var c := s[0];
    if c == '"' then StringAt(s)
    else if IsDigit(c) || c == '-' then NumberAt(s)
    else if c == 't' then Word(s, "true", TrueToken)
    else if c == 'f' then Word(s, "false", FalseToken)
    else if c == 'n' then Word(s, "null", NullToken)
    else if c == '/' then CommentAt(s)
    else Token(SingleKind(c), [c], s[1..])
  }

  function ReadToken(input: string): (t: Token)
    ensures |t.rest| <= |input|
    ensures t.kind != EndOfStream ==> |t.rest| < |input|
    ensures t.kind == StringToken ==> |t.text| >= 2
    ensures t.kind == NumberToken ==> |t.text| >= 1
  {
    var s := SkipSpaces(input);
    if s == [] then Token(EndOfStream, "", "") else FirstToken(s)
  }

  /** The first token that is not a comment. */
  function PastComments(input: string): (t: Token)
    ensures |t.rest| <= |input|
    ensures t.kind != EndOfStream ==> |t.rest| < |input|
    ensures t.kind == StringToken ==> |t.text| >= 2
    ensures t.kind == NumberToken ==> |t.text| >= 1
    decreases |input|
  {
    var t := ReadToken(input);
    if t.kind == Comment then PastComments(t.rest) else t
  }

  // ----- numbers -----

  function DigitOf(c: char): (d: nat)
    requires IsDigit(c)
    ensures d < 10
  {
    c as int - '0' as int
  }

  datatype Accumulation = NotANumber | TooLarge | Within(n: nat)

  /** Digits after `value`, as long as the result stays within `max`. */
  function Accumulated(digits: string, value: nat, max: nat): Accumulation {
    if digits == [] then Within(value)
    else if !IsDigit(digits[0]) then NotANumber
    else
      var d := DigitOf(digits[0]);
      if value >= max / 10 && (value > max / 10 || |digits| > 1 || d > max % 10) then TooLarge
      else Accumulated(digits[1..], value * 10 + d, max)
  }

  predicate LooksDouble(text: string) {
    exists i :: 0 <= i < |text| && InNumber(text[i]) && !IsDigit(text[i]) && (text[i] == '-' ==> i > 0)
  }

  // How `sscanf` reads a double, by section 7.21.6.2 of ISO/IEC 9899:2011: it takes the longest
  // text that begins some floating constant, and fails if that text is not one itself.

  datatype Scan = Start | Signed | Whole | LonePoint | Fraction | ExponentMark | ExponentSign | Exponent

  /** Where the next character leads, if a floating constant can go on with it. */
  function ScanStep(state: Scan, c: char): Option<Scan> {
    match state
    case Start => if IsDigit(c) then Some(Whole) else if c == '.' then Some(LonePoint) else if c == '+' || c == '-' then Some(Signed) else None
    case Signed => if IsDigit(c) then Some(Whole) else if c == '.' then Some(LonePoint) else None
    case Whole => if IsDigit(c) then Some(Whole) else if c == '.' then Some(Fraction) else if c == 'e' || c == 'E' then Some(ExponentMark) else None
    case LonePoint => if IsDigit(c) then Some(Fraction) else None
    case Fraction => if IsDigit(c) then Some(Fraction) else if c == 'e' || c == 'E' then Some(ExponentMark) else None
    case ExponentMark => if IsDigit(c) then Some(Exponent) else if c == '+' || c == '-' then Some(ExponentSign) else None
    case ExponentSign => if IsDigit(c) then Some(Exponent) else None
    case Exponent => if IsDigit(c) then Some(Exponent) else None
  }

  /** Is what is taken of `text`, after a text that leads to `state`, a floating constant? */
  predicate Scans(state: Scan, text: string)
    decreases |text|
  {
    if text != [] && ScanStep(state, text[0]).Some? then Scans(ScanStep(state, text[0]).value, text[1..])
    else state.Whole? || state.Fraction? || state.Exponent?
  }

  function DecodeDouble(text: string): Option<Value> {
    if Scans(Start, text) then Some(Real(text)) else None
  }

  function DecodeNumber(text: string): Option<Value>
    requires text != []
  {
    if LooksDouble(text) then DecodeDouble(text)
    else
      var negative := text[0] == '-';
      var digits := if negative then text[1..] else text;
      match Accumulated(digits, 0, if negative then MAX_LARGEST_INT + 1 else MAX_LARGEST_UINT)
      case NotANumber => None
      case TooLarge => DecodeDouble(text)
      case Within(n) => Some(if negative then Int(0 - n) else Integer(n))
  }

  // ----- strings -----

  function HexValue(c: char): int {
    if '0' <= c <= '9' then c as int - '0' as int
    else if 'a' <= c <= 'f' then c as int - 'a' as int + 10
    else if 'A' <= c <= 'F' then c as int - 'A' as int + 10
    else -1
  }

  /** Four hexadecimal digits, or -1. */
  function HexFour(s: string): (n: int)
    ensures -1 <= n < 0x1_0000
  {
    if |s| < 4 then -1
    else
      var a, b, c, d := HexValue(s[0]), HexValue(s[1]), HexValue(s[2]), HexValue(s[3]);
      if a == -1 || b == -1 || c == -1 || d == -1 then -1 else ((a * 16 + b) * 16 + c) * 16 + d
  }

  /** The code point after a \u and the number of characters it takes, or -1. */
  function CodePoint(s: string): (r: (int, nat))
    ensures r.0 >= 0 ==> 0 < r.1 <= |s|
  {
    var high := HexFour(s);
    if high == -1 then (-1, 0)
    else if !(0xD800 <= high <= 0xDBFF) then (high, 4)
    else if |s| < 10 || s[4] != '\\' || s[5] != 'u' then (-1, 0)
    else
      var low := HexFour(s[6..]);
      if low == -1 then (-1, 0)
      else (0x10000 + high % 0x400 * 0x400 + low % 0x400, 10)
  }

  function Utf8(cp: nat): string {
    if cp <= 0x7f then [cp as char]
    else if cp <= 0x7ff then [(0xC0 + cp / 0x40) as char, (0x80 + cp % 0x40) as char]
    else if cp <= 0xffff then
      [(0xE0 + cp / 0x1000) as char, (0x80 + cp / 0x40 % 0x40) as char, (0x80 + cp % 0x40) as char]
    else if cp <= 0x10ffff then
      [(0xF0 + cp / 0x40000) as char, (0x80 + cp / 0x1000 % 0x40) as char,
       (0x80 + cp / 0x40 % 0x40) as char, (0x80 + cp % 0x40) as char]
    else ""
  }

  function SimpleEscape(c: char): Option<char> {
    if c == '"' || c == '/' || c == '\\' then Some(c)
    else if c == 'b' then Some(BACKSPACE)
    else if c == 'f' then Some(FORM_FEED)
    else if c == 'n' then Some('\n')
    else if c == 'r' then Some('\r')
    else if c == 't' then Some('\t')
    else None
  }

  function Before(prefix: string, r: Option<string>): Option<string> {
    match r case None => None case Some(s) => Some(prefix + s)
  }

  /** The characters between the quotes, with escapes resolved. */
  function DecodeChars(s: string): Option<string> {
    if s == [] || s[0] == '"' then Some("")
    else if s[0] != '\\' then Before([s[0]], DecodeChars(s[1..]))
    else if |s| == 1 then None
    else if s[1] == 'u' then
      var (cp, n) := CodePoint(s[2..]);
      if cp < 0 then None else Before(Utf8(cp), DecodeChars(s[2 + n..]))
    else
      match SimpleEscape(s[1])
      case None => None
      case Some(c) => Before([c], DecodeChars(s[2..]))
  }

  function DecodeString(text: string): Option<string>
    requires |text| >= 2
  {
    DecodeChars(text[1..|text| - 1])
  }

  // ----- values -----

  datatype Parsed = Failed | Parsed(value: Value, rest: string)

  function ParseValue(s: string): (r: Parsed)
    ensures r.Parsed? ==> |r.rest| < |s|
    decreases |s|, 0
  {
    var t := PastComments(s);
    match t.kind
    case ObjectBegin => ParseMembers(t.rest, "", [])
    case ArrayBegin => ParseArray(t.rest)
    case NumberToken => Decoded(DecodeNumber(t.text), t.rest)
    case StringToken =>
      (match DecodeString(t.text)
       case None => Failed
       case Some(d) => Parsed(String(CString(d)), t.rest))
    case TrueToken => Parsed(Bool(true), t.rest)
    case FalseToken => Parsed(Bool(false), t.rest)
    case NullToken => Parsed(Null, t.rest)
    case _ => Failed
  }

  function Decoded(v: Option<Value>, rest: string): Parsed {
    match v case None => Failed case Some(x) => Parsed(x, rest)
  }

  function ParseArray(s: string): (r: Parsed)
    ensures r.Parsed? ==> |r.rest| < |s|
    decreases |s|, 2
  {
    var s' := SkipSpaces(s);
    if s' != [] && s'[0] == ']' then Parsed(Array([]), s'[1..]) else ParseElements(s', [])
  }

  function ParseElements(s: string, elements: seq<Value>): (r: Parsed)
    ensures r.Parsed? ==> |r.rest| < |s|
    decreases |s|, 1
  {
    match ParseValue(s)
    case Failed => Failed
    case Parsed(v, rest) =>
      var t := PastComments(rest);
      if t.kind == Comma then ParseElements(t.rest, elements + [v])
      else if t.kind == ArrayEnd then Parsed(Array(elements + [v]), t.rest)
      else Failed
  }

  /** `name` is the last name read: a '}' is accepted after a comma when it is empty. */
  function ParseMembers(s: string, name: string, members: seq<Member>): (r: Parsed)
    ensures r.Parsed? ==> |r.rest| < |s|
    decreases |s|, 1
  {
    var t := PastComments(s);
    if t.kind == ObjectEnd && name == [] then Parsed(Object(members), t.rest)
    else if t.kind != StringToken then Failed
    else
      match DecodeString(t.text)
      case None => Failed
      case Some(key) => ParseMember(t.rest, key, members)
  }

  /** Once a comment follows a member, any token but '}' passes for the comma. */
  function AfterComment(t: Token, name: string, members: seq<Member>): (r: Parsed)
    ensures r.Parsed? ==> |r.rest| <= |t.rest|
    decreases |t.rest|, 2
  {
    if t.kind == ObjectEnd then Parsed(Object(members), t.rest) else ParseMembers(t.rest, name, members)
  }

  /** After a member the list goes on with a comma, or with a comment and then, past all comments, any
      token other than '}'. */
  predicate GoesOn(after: string) {
    var t := ReadToken(after);
    t.kind == Comma || (t.kind == Comment && PastComments(after).kind != ObjectEnd)
  }

  /** From the colon on. */
  function ParseMember(s: string, name: string, members: seq<Member>): (r: Parsed)
    ensures r.Parsed? ==> |r.rest| < |s|
    decreases |s|, 1
  {
    var colon := ReadToken(s);
    if colon.kind != Colon then Failed
    else
      match ParseValue(colon.rest)
      case Failed => Failed
      case Parsed(v, rest) =>
        var t, members' := ReadToken(rest), SetMember(members, CString(name), v);
        if t.kind == ObjectEnd then Parsed(Object(members'), t.rest)
        else if t.kind == Comma then ParseMembers(t.rest, name, members')
        else if t.kind == Comment then AfterComment(PastComments(t.rest), name, members')
        else Failed
  }
}
