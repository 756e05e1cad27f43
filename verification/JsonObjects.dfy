/** Reading objects with their members in any order, repeats included. */
module JsonObjects {
  import opened Outcomes
  import opened JsonValues
  import opened JsonWriting
  import opened JsonReading
  import opened JsonRoundTrip
  import opened JsonReadable

  /** A member as text: its key, the text of its value, and the value. */
  datatype Entry = Entry(key: string, text: string, value: Value)

  /** The text is read as the value, whatever text follows that does not go on with a number. */
  ghost predicate Reads(text: string, value: Value) {
    forall tail :: Delimited(tail) ==> ParseValue(text + tail) == Parsed(value, tail)
  }

  ghost predicate AllRead(es: seq<Entry>) {
    forall i :: 0 <= i < |es| ==> NulFree(es[i].key) && Reads(es[i].text, es[i].value)
  }

  /** The members joined by commas. */
  function Joined(es: seq<Entry>): string {
    if es == [] then ""
    else Pair(es[0].key, es[0].text) + if |es| == 1 then "" else "," + Joined(es[1..])
  }

  /** The value of the last member with the key, if any. */
  function LastValue(es: seq<Entry>, key: string): Option<Value> {
    if es == [] then None
    else if es[|es| - 1].key == key then Some(es[|es| - 1].value)
    else LastValue(es[..|es| - 1], key)
  }

  /** The members of an object, assigned one after the other. */
  function Assigned(members: seq<Member>, es: seq<Entry>): seq<Member>
    decreases |es|
  {
    if es == [] then members else Assigned(SetMember(members, es[0].key, es[0].value), es[1..])
  }

  lemma {:induction false} AssignedLast(members: seq<Member>, es: seq<Entry>, e: Entry)
    ensures Assigned(members, es + [e]) == SetMember(Assigned(members, es), e.key, e.value)
    decreases |es|
  {
    hide SetMember;
    if es == [] {
      assert [e][1..] == [];
    } else {
      AssignedLast(SetMember(members, es[0].key, es[0].value), es[1..], e);
      assert (es + [e])[1..] == es[1..] + [e];
    }
  }

  /** Each key holds its last value, no other key occurs, and keys ascend, so none occurs twice. */
  lemma {:induction false} AssignedHolds(es: seq<Entry>, key: string)
    ensures Lookup(Assigned([], es), key) == LastValue(es, key)
    ensures Ascending(Assigned([], es))
  {
    hide SetMember, KeyLess;
    if es != [] {
      var before, e := es[..|es| - 1], es[|es| - 1];
      AssignedHolds(before, key);
      AssignedLast([], before, e);
      assert es == before + [e];
      SetMemberLookup(Assigned([], before), e.key, e.value, key);
      SetMemberAscending(Assigned([], before), e.key, e.value);
    }
  }

  lemma DelimitedBy(c: char, rest: string)
    requires c == ',' || c == '}'
    ensures Delimited([c] + rest)
  {
  }

  lemma {:induction false} MembersRead(es: seq<Entry>, name: string, read: seq<Member>, tail: string)
    requires es != [] && AllRead(es)
    ensures ParseMembers(Joined(es) + "}" + tail, name, read) == Parsed(Object(Assigned(read, es)), tail)
    decreases |es|
  {
    hide ReadToken, ParseValue, ParseMembers, AfterComment, PastComments, Pair, SetMember, NulFree, Delimited, Reads;
    var e := es[0];
    var text := Pair(e.key, e.text);
    assert NulFree(e.key) && Reads(e.text, e.value);
    if |es| == 1 {
      var after := ['}'] + tail;
      assert Joined(es) + "}" + tail == text + after;
      DelimitedBy('}', tail);
      ReadsBefore(e.text, e.value, after);
      OneCharToken('}', tail);
      MemberReadBack(e.key, e.text, e.value, after, name, read);
      assert es[1..] == [];
    } else {
      var rest := Joined(es[1..]) + "}" + tail;
      var after := [','] + rest;
      assert Joined(es) + "}" + tail == text + after;
      DelimitedBy(',', rest);
      ReadsBefore(e.text, e.value, after);
      OneCharToken(',', rest);
      MemberReadBack(e.key, e.text, e.value, after, name, read);
      MembersRead(es[1..], e.key, SetMember(read, e.key, e.value), tail);
    }
  }

  lemma ReadsBefore(text: string, value: Value, tail: string)
    requires Reads(text, value) && Delimited(tail)
    ensures ParseValue(text + tail) == Parsed(value, tail)
  {
    hide ParseValue;
  }

  /** Any members, in any order and with repeats, joined by commas between braces, are read as an
      object in which each key holds the value of its last member, and no other key occurs. */
  lemma ObjectReads(es: seq<Entry>, tail: string)
    requires AllRead(es)
    ensures var r := ParseValue("{" + Joined(es) + "}" + tail);
      && r.Parsed? && r.rest == tail && r.value.Object? && Ascending(r.value.members)
      && forall key :: Lookup(r.value.members, key) == LastValue(es, key)
  {
    hide ReadToken, PastComments, ParseMembers, Pair, Lookup, LastValue, Ascending, AllRead, Joined;
    var rest := Joined(es) + "}" + tail;
    assert "{" + Joined(es) + "}" + tail == ['{'] + rest;
    OneCharToken('{', rest);
    NoComment(['{'] + rest);
    assert ParseMembers(rest, "", []) == Parsed(Object(Assigned([], es)), tail) by { BodyRead(es, tail); }
    forall key ensures Lookup(Assigned([], es), key) == LastValue(es, key) { AssignedHolds(es, key); }
    AssignedHolds(es, "");
  }

  lemma BodyRead(es: seq<Entry>, tail: string)
    requires AllRead(es)
    ensures ParseMembers(Joined(es) + "}" + tail, "", []) == Parsed(Object(Assigned([], es)), tail)
  {
    hide ReadToken, PastComments, ParseMember, Pair, DecodeString;
    if es == [] {
      assert Joined(es) + "}" + tail == ['}'] + tail;
      OneCharToken('}', tail);
      NoComment(['}'] + tail);
    } else {
      MembersRead(es, "", [], tail);
    }
  }

  /** What is written is read so: the texts of storable values may be used for members. */
  lemma WrittenReads(v: Value)
    requires Storable(v)
    ensures Reads(Written(v), Retagged(v))
  {
    hide ParseValue, Written, Retagged, Storable;
    forall tail | Delimited(tail) ensures ParseValue(Written(v) + tail) == Parsed(Retagged(v), tail) { ReadBack(v, tail); }
  }
}
