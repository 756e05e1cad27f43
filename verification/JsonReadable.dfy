/** What every value read from any document has in common. */
module JsonReadable {
  import opened Outcomes
  import opened JsonValues
  import opened JsonReading
  import opened JsonWriting
  import opened JsonRoundTrip

  // ----- members -----

  lemma {:induction false} KeyLessTotal(a: string, b: string)
    ensures KeyLess(a, b) || a == b || KeyLess(b, a)
  {
    if a != [] && b != [] && a[0] == b[0] {
      KeyLessTotal(a[1..], b[1..]);
      assert a == [a[0]] + a[1..] && b == [b[0]] + b[1..];
    }
  }

  lemma {:induction false} KeyLessTransitive(a: string, b: string, c: string)
    requires KeyLess(a, b) && KeyLess(b, c)
    ensures KeyLess(a, c)
  {
    if a != [] && a[0] == b[0] == c[0] { KeyLessTransitive(a[1..], b[1..], c[1..]); }
  }

  function Lookup(ms: seq<Member>, key: string): Option<Value> {
    if ms == [] then None else if ms[0].key == key then Some(ms[0].value) else Lookup(ms[1..], key)
  }

  ghost predicate Ascending(ms: seq<Member>) {
    forall i, j :: 0 <= i < j < |ms| ==> KeyLess(ms[i].key, ms[j].key)
  }

  /** Assigning a member changes what that key holds and nothing else. */
  lemma {:induction false} SetMemberLookup(ms: seq<Member>, key: string, value: Value, k: string)
    ensures Lookup(SetMember(ms, key, value), k) == if k == key then Some(value) else Lookup(ms, k)
  {
    hide KeyLess;
    var after := SetMember(ms, key, value);
    if ms == [] {
      assert after[1..] == [];
    } else if ms[0].key == key || KeyLess(key, ms[0].key) {
      assert ms[0].key == key ==> after[1..] == ms[1..];
      assert ms[0].key != key ==> after[1..] == ms;
    } else {
      SetMemberLookup(ms[1..], key, value, k);
      assert after[1..] == SetMember(ms[1..], key, value);
    }
  }

  /** Every member after an assignment is an old one or the new one. */
  lemma {:induction false} SetMemberFrom(ms: seq<Member>, key: string, value: Value, i: nat)
    requires i < |SetMember(ms, key, value)|
    ensures var m := SetMember(ms, key, value)[i]; m == Member(key, value) || m in ms
  {
    hide KeyLess;
    if ms != [] && ms[0].key != key && !KeyLess(key, ms[0].key) && i > 0 {
      SetMemberFrom(ms[1..], key, value, i - 1);
    }
  }

  /** And the keys stay ascending, so no key occurs twice. */
  lemma {:induction false} SetMemberAscending(ms: seq<Member>, key: string, value: Value)
    requires Ascending(ms)
    ensures Ascending(SetMember(ms, key, value))
  {
    hide KeyLess;
    var after := SetMember(ms, key, value);
    if ms == [] {
    } else if ms[0].key == key {
    } else if KeyLess(key, ms[0].key) {
      forall j | 0 <= j < |ms| ensures KeyLess(key, ms[j].key) {
        if j > 0 { KeyLessTransitive(key, ms[0].key, ms[j].key); }
      }
    } else {
      KeyLessTotal(ms[0].key, key);
      var rest := SetMember(ms[1..], key, value);
      SetMemberAscending(ms[1..], key, value);
      forall j | 0 <= j < |rest| ensures KeyLess(ms[0].key, rest[j].key) {
        SetMemberFrom(ms[1..], key, value, j);
        if rest[j] in ms[1..] {
          var l :| 0 <= l < |ms[1..]| && ms[1..][l] == rest[j];
          assert ms[l + 1] == rest[j];
        }
      }
      assert after == [ms[0]] + rest;
    }
  }

  // ----- values -----

  /** Strings and keys are C strings, keys ascend, and integers fit 64 bits with the tag of their size. */
  ghost predicate Readable(v: Value) {
    match v
    case Null => true
    case Bool(_) => true
    case Int(i) => -MAX_LARGEST_INT - 1 <= i <= MAX_INT
    case UInt(u) => MAX_INT < u <= MAX_LARGEST_UINT
    case Real(_) => true
    case String(s) => NulFree(s)
    case Array(es) => forall i :: 0 <= i < |es| ==> Readable(es[i])
    case Object(ms) => ReadableMembers(ms) && Ascending(ms)
  }

  ghost predicate ReadableMembers(ms: seq<Member>) {
    forall i :: 0 <= i < |ms| ==> NulFree(ms[i].key) && Readable(ms[i].value)
  }

  lemma {:induction false} CStringIsNulFree(s: string)
    ensures NulFree(CString(s))
  {
    if s != [] && s[0] != NUL { CStringIsNulFree(s[1..]); }
  }

  lemma {:induction false} AccumulatedWithin(digits: string, value: nat, max: nat)
    requires value <= max
    ensures Accumulated(digits, value, max).Within? ==> Accumulated(digits, value, max).n <= max
  {
    if digits != [] && IsDigit(digits[0]) {
      var w := value * 10 + DigitOf(digits[0]);
      if w <= max { AccumulatedWithin(digits[1..], w, max); }
    }
  }

  lemma NumberIsReadable(text: string)
    requires text != [] && DecodeNumber(text).Some?
    ensures Readable(DecodeNumber(text).value)
  {
    hide Accumulated, LooksDouble;
    var negative := text[0] == '-';
    var digits := if negative then text[1..] else text;
    AccumulatedWithin(digits, 0, if negative then MAX_LARGEST_INT + 1 else MAX_LARGEST_UINT);
  }

  /** Whatever document is read, if reading succeeds the value is well formed. */
  lemma {:induction false} ReadIsReadable(s: string)
    requires ParseValue(s).Parsed?
    ensures Readable(ParseValue(s).value)
    decreases |s|, 0
  {
    hide PastComments, DecodeNumber, DecodeString, ParseArray, ParseMembers;
    var t := PastComments(s);
    match t.kind
    case ObjectBegin => MembersAreReadable(t.rest, "", []);
    case ArrayBegin => ArrayIsReadable(t.rest);
    case NumberToken => NumberIsReadable(t.text);
    case StringToken => CStringIsNulFree(DecodeString(t.text).value);
    case _ =>
  }

  lemma {:induction false} ArrayIsReadable(s: string)
    requires ParseArray(s).Parsed?
    ensures Readable(ParseArray(s).value)
    decreases |s|, 2
  {
    hide ParseElements;
    var s' := SkipSpaces(s);
    if !(s' != [] && s'[0] == ']') { ElementsAreReadable(s', []); }
  }

  lemma {:induction false} ElementsAreReadable(s: string, es: seq<Value>)
    requires ParseElements(s, es).Parsed? && forall i :: 0 <= i < |es| ==> Readable(es[i])
    ensures Readable(ParseElements(s, es).value)
    decreases |s|, 1
  {
    hide PastComments, ParseValue;
    ReadIsReadable(s);
    var v := ParseValue(s).value;
    var t := PastComments(ParseValue(s).rest);
    if t.kind == Comma { ElementsAreReadable(t.rest, es + [v]); }
  }

  lemma {:induction false} MembersAreReadable(s: string, name: string, ms: seq<Member>)
    requires ParseMembers(s, name, ms).Parsed? && ReadableMembers(ms) && Ascending(ms)
    ensures Readable(ParseMembers(s, name, ms).value)
    decreases |s|, 1
  {
    hide PastComments, DecodeString, ParseMember, ReadableMembers, Ascending;
    var t := PastComments(s);
    if !(t.kind == ObjectEnd && name == []) {
      MemberIsReadable(t.rest, DecodeString(t.text).value, ms);
    }
  }

  lemma {:induction false} MemberIsReadable(s: string, name: string, ms: seq<Member>)
    requires ParseMember(s, name, ms).Parsed? && ReadableMembers(ms) && Ascending(ms)
    ensures Readable(ParseMember(s, name, ms).value)
    decreases |s|, 1
  {
    hide ReadToken, PastComments, ParseValue, ParseMembers, ReadableMembers, Ascending, SetMember;
    var colon := ReadToken(s);
    ReadIsReadable(colon.rest);
    var v, rest := ParseValue(colon.rest).value, ParseValue(colon.rest).rest;
    var t, after := ReadToken(rest), SetMember(ms, CString(name), v);
    SetMemberAscending(ms, CString(name), v);
    CStringIsNulFree(name);
    SetMemberReadable(ms, CString(name), v);
    if t.kind == Comma {
      MembersAreReadable(t.rest, name, after);
    } else if t.kind == Comment && PastComments(t.rest).kind != ObjectEnd {
      MembersAreReadable(PastComments(t.rest).rest, name, after);
    }
  }

  lemma SetMemberReadable(ms: seq<Member>, key: string, v: Value)
    requires ReadableMembers(ms) && NulFree(key) && Readable(v)
    ensures ReadableMembers(SetMember(ms, key, v))
  {
    hide KeyLess, SetMember, NulFree, Readable;
    var after := SetMember(ms, key, v);
    forall i | 0 <= i < |after| ensures NulFree(after[i].key) && Readable(after[i].value) {
      SetMemberFrom(ms, key, v, i);
    }
  }

  // ----- what was read, written and read again -----

  /** No doubles, and not the least signed integer. */
  ghost predicate Plain(v: Value) {
    match v
    case Int(i) => i >= -MAX_LARGEST_INT
    case Real(_) => false
    case Array(es) => forall i :: 0 <= i < |es| ==> Plain(es[i])
    case Object(ms) => forall i :: 0 <= i < |ms| ==> Plain(ms[i].value)
    case _ => true
  }

  lemma {:induction false} ReadableIsStorable(v: Value)
    requires Readable(v) && Plain(v)
    ensures Storable(v)
  {
    match v
    case Array(es) => forall i | 0 <= i < |es| { ReadableIsStorable(es[i]); }
    case Object(ms) => forall i | 0 <= i < |ms| { ReadableIsStorable(ms[i].value); }
    case _ =>
  }

  lemma {:induction false} ReadableIsTagged(v: Value)
    requires Readable(v)
    ensures Retagged(v) == v
    decreases v, 1, 0
  {
    match v
    case Array(es) => ElementsAreTagged(v, 0);
    case Object(ms) => MembersAreTagged(v, 0);
    case _ =>
  }

  lemma {:induction false} ElementsAreTagged(v: Value, i: nat)
    requires v.Array? && Readable(v) && i <= |v.elements|
    ensures ElementsRetagged(v, i) == v.elements[i..]
    decreases v, 0, |v.elements| - i
  {
    if i < |v.elements| {
      ReadableIsTagged(v.elements[i]);
      ElementsAreTagged(v, i + 1);
    }
  }

  lemma {:induction false} MembersAreTagged(v: Value, i: nat)
    requires v.Object? && Readable(v) && i <= |v.members|
    ensures MembersRetagged(v, i) == v.members[i..]
    decreases v, 0, |v.members| - i
  {
    if i < |v.members| {
      ReadableIsTagged(v.members[i].value);
      MembersAreTagged(v, i + 1);
    }
  }

  /** A value read from any document, if it has no doubles, is written to text that reads as the very
      same value. */
  lemma Reread(s: string)
    requires ParseValue(s).Parsed? && Plain(ParseValue(s).value)
    ensures ParseValue(Written(ParseValue(s).value) + "\n") == Parsed(ParseValue(s).value, "\n")
  {
    hide ParseValue, Written, Retagged, Readable, Plain, Storable;
    var v := ParseValue(s).value;
    ReadIsReadable(s);
    ReadableIsStorable(v);
    ReadableIsTagged(v);
    RoundTrip(v);
  }
}
