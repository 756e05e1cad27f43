/** Writing JSON values in the compact form. */
module JsonWriting {
  import opened JsonValues

  // ----- numbers -----

  function Digit(d: nat): char
    requires d < 10
  {
    (d + '0' as int) as char
  }

  function Decimal(n: nat): string {
    if n < 10 then [Digit(n)] else Decimal(n / 10) + [Digit(n % 10)]
  }

  function WrittenInteger(n: int): string {
    if n < 0 then "-" + Decimal(-n) else Decimal(n)
  }

  method UintToString(value: nat) returns (s: string)
    ensures s == Decimal(value)
  {
    var v := value;
    s := [Digit(v % 10)];
    v := v / 10;
    while v != 0
      invariant v == 0 ==> s == Decimal(value)
      invariant v != 0 ==> Decimal(v) + s == Decimal(value)
      decreases v
    {
      s := [Digit(v % 10)] + s;
      v := v / 10;
    }
  }

  // ----- strings -----

  const BACKSPACE := 8 as char
  const FORM_FEED := 12 as char

  predicate IsControl(c: char) {
    0 < c as int <= 0x1f
  }

  function Hex(d: nat): char
    requires d < 16
  {
    if d < 10 then (d + '0' as int) as char else (d - 10 + 'A' as int) as char
  }

  function Escaped(c: char): string {
    if c == '"' then "\\\"" else if c == '\\' then "\\\\"
    else if c == BACKSPACE then "\\b" else if c == FORM_FEED then "\\f"
    else if c == '\n' then "\\n" else if c == '\r' then "\\r" else if c == '\t' then "\\t"
    else if IsControl(c) then "\\u00" + [Hex(c as int / 16), Hex(c as int % 16)]
    else [c]
  }

  function AllEscaped(s: string): string {
    if s == [] then [] else Escaped(s[0]) + AllEscaped(s[1..])
  }

  function Quoted(s: string): string {
    "\"" + AllEscaped(s) + "\""
  }

  predicate NeedsEscape(c: char) {
    c == '"' || c == '\\' || c == BACKSPACE || c == FORM_FEED || c == '\n' || c == '\r' || c == '\t' || IsControl(c)
  }

  lemma {:induction false} NothingToEscape(s: string)
    requires forall i :: 0 <= i < |s| ==> !NeedsEscape(s[i])
    ensures AllEscaped(s) == s
  {
    if s != [] {
      NothingToEscape(s[1..]);
      assert s == [s[0]] + s[1..];
    }
  }

  /** The quoted form, by the direct copy when nothing needs an escape, else character by character. */
  method ValueToQuotedString(s: string) returns (r: string)
    ensures r == Quoted(CString(s))
  {
    var value := CString(s);
    var plain := true;
    for i := 0 to |value|
      invariant plain ==> forall j :: 0 <= j < i ==> !NeedsEscape(value[j])
    {
      if NeedsEscape(value[i]) { plain := false; }
    }
    if plain {
      NothingToEscape(value);
      return "\"" + value + "\"";
    }
    r := EscapeEach(value);
  }

  method EscapeEach(value: string) returns (r: string)
    ensures r == Quoted(value)
  {
    hide Escaped, AllEscaped;
    r := "\"";
    assert value[0..] == value;
    for i := 0 to |value|
      invariant r + AllEscaped(value[i..]) == "\"" + AllEscaped(value)
    {
      EscapedFrom(value, i);
      r := r + Escaped(value[i]);
    }
    assert value[|value|..] == [];
    EscapedNone();
    r := r + "\"";
  }

  lemma EscapedFrom(value: string, i: nat)
    requires i < |value|
    ensures AllEscaped(value[i..]) == Escaped(value[i]) + AllEscaped(value[i + 1..])
  {
    hide Escaped;
    assert value[i..][1..] == value[i + 1..];
  }

  lemma EscapedNone()
    ensures AllEscaped([]) == []
  {
  }

  // ----- values -----

  function Written(v: Value): string
    decreases v, 1, 0
  {
    match v
    case Null => "null"
    case Bool(b) => if b then "true" else "false"
    case Int(i) => WrittenInteger(i)
    case UInt(u) => Decimal(u)
    case Real(text) => text
    case String(s) => Quoted(CString(s))
    case Array(_) => "[" + ElementsFrom(v, 0) + "]"
    case Object(_) => "{" + MembersFrom(v, 0) + "}"
  }

  /** The elements from i on, each but the first after a comma. */
  function ElementsFrom(v: Value, i: nat): string
    requires v.Array? && i <= |v.elements|
    decreases v, 0, |v.elements| - i
  {
    if i == |v.elements| then ""
    else (if i > 0 then "," else "") + Written(v.elements[i]) + ElementsFrom(v, i + 1)
  }

  function Pair(key: string, text: string): string {
    Quoted(CString(key)) + ":" + text
  }

  function MembersFrom(v: Value, i: nat): string
    requires v.Object? && i <= |v.members|
    decreases v, 0, |v.members| - i
  {
    if i == |v.members| then ""
    else (if i > 0 then "," else "") + Pair(v.members[i].key, Written(v.members[i].value)) + MembersFrom(v, i + 1)
  }

  class FastWriter {
    var document: string

    constructor ()
      ensures document == ""
    {
      document := "";
    }

    method Write(root: Value) returns (text: string)
      modifies this
      ensures text == Written(root) + "\n" && document == text
    {
      document := "";
      WriteValue(root);
      document := document + "\n";
      text := document;
    }

    method WriteValue(v: Value)
      modifies this
      ensures document == old(document) + Written(v)
      decreases v, 1
    {
      hide Quoted, Decimal, ElementsFrom, MembersFrom;
      match v
      case Null => document := document + "null";
      case Bool(b) => document := document + if b then "true" else "false";
      case Int(i) =>
        var digits := UintToString(if i < 0 then -i else i);
        document := document + if i < 0 then "-" + digits else digits;
      case UInt(u) =>
        var digits := UintToString(u);
        document := document + digits;
      case Real(text) => document := document + text;
      case String(s) =>
        var quoted := ValueToQuotedString(s);
        document := document + quoted;
      case Array(_) => WriteArray(v);
      case Object(_) => WriteObject(v);
    }

    method WriteArray(v: Value)
      requires v.Array?
      modifies this
      ensures document == old(document) + "[" + ElementsFrom(v, 0) + "]"
      decreases v, 0
    {
      hide Written;
      document := document + "[";
      var n := |v.elements|;
      for i := 0 to n
        invariant document + ElementsFrom(v, i) == old(document) + "[" + ElementsFrom(v, 0)
      {
        ghost var before := document;
        if i > 0 { document := document + ","; }
        WriteValue(v.elements[i]);
        assert document == before + ((if i > 0 then "," else "") + Written(v.elements[i]));
      }
      document := document + "]";
    }

    method WritePair(v: Value, i: nat)
      requires v.Object? && i < |v.members|
      modifies this
      ensures document == old(document) + Pair(v.members[i].key, Written(v.members[i].value))
      decreases v, 0, 0
    {
      hide Written, Quoted;
      var name := ValueToQuotedString(v.members[i].key);
      document := document + name;
      document := document + ":";
      WriteValue(v.members[i].value);
    }

    method WriteObject(v: Value)
      requires v.Object?
      modifies this
      ensures document == old(document) + "{" + MembersFrom(v, 0) + "}"
      decreases v, 0, 1
    {
      hide Written, Pair;
      document := document + "{";
      var n := |v.members|;
      for i := 0 to n
        invariant document + MembersFrom(v, i) == old(document) + "{" + MembersFrom(v, 0)
      {
        ghost var before := document;
        if i > 0 { document := document + ","; }
        WritePair(v, i);
        assert document == before + ((if i > 0 then "," else "") + Pair(v.members[i].key, Written(v.members[i].value)));
      }
      document := document + "}";
    }
  }
}
