/** JSON values as the library stores them. Strings and keys are C strings. */
module JsonValues {

  datatype Value =
    | Null
    | Bool(b: bool)
    | Int(i: int)
    | UInt(u: nat)
    | Real(text: string)      // a double, kept as the text it was read from
    | String(s: string)
    | Array(elements: seq<Value>)
    | Object(members: seq<Member>)

  datatype Member = Member(key: string, value: Value)

  const NUL := 0 as char
  const MAX_INT := 0x7fff_ffff
  const MAX_LARGEST_INT := 0x7fff_ffff_ffff_ffff
  const MAX_LARGEST_UINT := 0xffff_ffff_ffff_ffff

  predicate NulFree(s: string) {
    forall i :: 0 <= i < |s| ==> s[i] != NUL
  }

  /** What a C string function sees of s: the characters before the first NUL. */
  function CString(s: string): string {
    if s == [] || s[0] == NUL then [] else [s[0]] + CString(s[1..])
  }

  lemma {:induction false} CStringWhole(s: string)
    requires NulFree(s)
    ensures CString(s) == s
  {
    if s != [] {
      CStringWhole(s[1..]);
      assert s == [s[0]] + s[1..];
    }
  }

  /** The order of strcmp. */
  predicate KeyLess(a: string, b: string) {
    if b == [] then false
    else if a == [] then true
    else a[0] < b[0] || (a[0] == b[0] && KeyLess(a[1..], b[1..]))
  }

  /** Assignment to a member: replaces its value, or inserts it in key order. */
  function SetMember(ms: seq<Member>, key: string, value: Value): seq<Member> {
    if ms == [] then [Member(key, value)]
    else if ms[0].key == key then [Member(key, value)] + ms[1..]
    else if KeyLess(key, ms[0].key) then [Member(key, value)] + ms
    else [ms[0]] + SetMember(ms[1..], key, value)
  }

  lemma {:induction false} KeyLessStrict(a: string, b: string)
    requires KeyLess(a, b)
    ensures a != b && !KeyLess(b, a)
  {
    if a != [] && a[0] == b[0] { KeyLessStrict(a[1..], b[1..]); }
  }

  /** A key above all others goes to the end. */
  lemma {:induction false} SetMemberLast(ms: seq<Member>, key: string, value: Value)
    requires forall i :: 0 <= i < |ms| ==> KeyLess(ms[i].key, key)
    ensures SetMember(ms, key, value) == ms + [Member(key, value)]
  {
    if ms != [] {
      KeyLessStrict(ms[0].key, key);
      SetMemberLast(ms[1..], key, value);
      assert ms == [ms[0]] + ms[1..];
    }
  }

  /** Values that the program can hold, other than doubles and the least signed integer. */
  ghost predicate Storable(v: Value) {
    match v
    case Null => true
    case Bool(_) => true
    case Int(i) => -MAX_LARGEST_INT <= i <= MAX_LARGEST_INT
    case UInt(u) => u <= MAX_LARGEST_UINT
    case Real(_) => false
    case String(s) => NulFree(s)
    case Array(es) => forall i :: 0 <= i < |es| ==> Storable(es[i])
    case Object(ms) =>
      && (forall i :: 0 <= i < |ms| ==> NulFree(ms[i].key) && Storable(ms[i].value))
      && (forall i, j :: 0 <= i < j < |ms| ==> KeyLess(ms[i].key, ms[j].key))
  }

  /** The tag that reading an integer gives it. */
  function Integer(n: int): Value {
    if n <= MAX_INT then Int(n) else UInt(n)
  }

  /** The value with every integer tagged as reading tags it. */
  function Retagged(v: Value): Value
    decreases v, 1, 0
  {
    match v
    case Int(i) => Integer(i)
    case UInt(u) => Integer(u)
    case Array(_) => Array(ElementsRetagged(v, 0))
    case Object(_) => Object(MembersRetagged(v, 0))
    case _ => v
  }

  function ElementsRetagged(v: Value, i: nat): seq<Value>
    requires v.Array? && i <= |v.elements|
    decreases v, 0, |v.elements| - i
  {
    if i == |v.elements| then [] else [Retagged(v.elements[i])] + ElementsRetagged(v, i + 1)
  }

  function MembersRetagged(v: Value, i: nat): seq<Member>
    requires v.Object? && i <= |v.members|
    decreases v, 0, |v.members| - i
  {
    if i == |v.members| then []
    else [Member(v.members[i].key, Retagged(v.members[i].value))] + MembersRetagged(v, i + 1)
  }
}
