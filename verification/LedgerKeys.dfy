/** Identity of ledger entries and the order in which a bucket keeps them. */
module LedgerKeys {

  /** Account identifiers, assets and balance identifiers are compared as the
      numbers their bytes spell; data names as strings of characters. */
  datatype LedgerKey =
    | Account(accountID: nat)
    | TrustLine(holderID: nat, asset: nat)
    | Offer(sellerID: nat, offerID: int)
    | Data(ownerID: nat, dataName: string)
    | ClaimableBalance(balanceID: nat)

  /** The fields a key is compared by, in order: its type first, then its identifying parts. */
  function Fields(k: LedgerKey): seq<int> {
    match k
    case Account(id) => [0, id]
    case TrustLine(id, asset) => [1, id, asset]
    case Offer(id, offer) => [2, id, offer]
    case Data(id, name) => [3, id] + Codes(name)
    case ClaimableBalance(id) => [4, id]
  }

  function Codes(s: string): seq<int> {
    seq(|s|, i requires 0 <= i < |s| => s[i] as int)
  }

  predicate LexLess(a: seq<int>, b: seq<int>) {
    if b == [] then false
    else if a == [] then true
    else a[0] < b[0] || (a[0] == b[0] && LexLess(a[1..], b[1..]))
  }

  /** The strict order in which buckets keep their entries. */
  predicate Less(a: LedgerKey, b: LedgerKey) {
    LexLess(Fields(a), Fields(b))
  }

  lemma {:induction false} LexTotal(a: seq<int>, b: seq<int>)
    ensures LexLess(a, b) || a == b || LexLess(b, a)
    ensures !(LexLess(a, b) && LexLess(b, a))
    ensures a == b ==> !LexLess(a, b)
  {
    if a != [] && b != [] {
      LexTotal(a[1..], b[1..]);
      assert a == [a[0]] + a[1..] && b == [b[0]] + b[1..];
    }
  }

  lemma {:induction false} LexTransitive(a: seq<int>, b: seq<int>, c: seq<int>)
    requires LexLess(a, b) && LexLess(b, c)
    ensures LexLess(a, c)
  {
    if a != [] && a[0] == b[0] == c[0] { LexTransitive(a[1..], b[1..], c[1..]); }
  }

  lemma CodesInjective(s: string, t: string)
    requires Codes(s) == Codes(t)
    ensures s == t
  {
    forall i | 0 <= i < |s| ensures |s| == |t| && s[i] == t[i] {
      assert Codes(s)[i] == Codes(t)[i];
    }
  }

  lemma FieldsInjective(a: LedgerKey, b: LedgerKey)
    requires Fields(a) == Fields(b)
    ensures a == b
  {
    assert Fields(a)[0] == Fields(b)[0] && Fields(a)[1] == Fields(b)[1];
    match a {
      case Account(_) =>
      case TrustLine(_, _) => assert Fields(a)[2] == Fields(b)[2];
      case Offer(_, _) => assert Fields(a)[2] == Fields(b)[2];
      case Data(_, name) =>
        assert Codes(name) == Fields(a)[2..] == Fields(b)[2..] == Codes(b.dataName);
        CodesInjective(name, b.dataName);
      case ClaimableBalance(_) =>
    }
  }

  /** Exactly one of: smaller, equal, larger. So entries compare equivalent
      exactly when their keys are the same key. */
  lemma LessTotal(a: LedgerKey, b: LedgerKey)
    ensures Less(a, b) || a == b || Less(b, a)
    ensures !(Less(a, b) && Less(b, a))
    ensures !Less(a, a)
  {
    LexTotal(Fields(a), Fields(b));
    LexTotal(Fields(a), Fields(a));
    if Fields(a) == Fields(b) { FieldsInjective(a, b); }
  }

  lemma LessTransitive(a: LedgerKey, b: LedgerKey, c: LedgerKey)
    requires Less(a, b) && Less(b, c)
    ensures Less(a, c)
  {
    LexTransitive(Fields(a), Fields(b), Fields(c));
  }

  // ----- the order, type by type -----

  /** Accounts come first, then trust lines, offers, data and claimable balances. */
  lemma LessAcrossTypes(a: LedgerKey, b: LedgerKey)
    ensures a.Account? && !b.Account? ==> Less(a, b) && !Less(b, a)
    ensures a.TrustLine? && (b.Offer? || b.Data? || b.ClaimableBalance?) ==> Less(a, b) && !Less(b, a)
    ensures a.Offer? && (b.Data? || b.ClaimableBalance?) ==> Less(a, b) && !Less(b, a)
    ensures a.Data? && b.ClaimableBalance? ==> Less(a, b) && !Less(b, a)
  {
  }

  lemma LexPair(a: seq<int>, b: seq<int>)
    requires |a| >= 2 && |b| >= 2 && a[0] == b[0]
    ensures LexLess(a, b) <==> a[1] < b[1] || (a[1] == b[1] && LexLess(a[2..], b[2..]))
  {
    assert a[1..][1..] == a[2..] && b[1..][1..] == b[2..];
  }

  lemma LexOne(a: int, b: int)
    ensures LexLess([a], [b]) <==> a < b
    ensures !LexLess([], [])
  {
    assert [a][1..] == [] && [b][1..] == [];
  }

  /** Within a type the holder decides, then the asset, offer or name. */
  lemma LessWithinType(a: LedgerKey, b: LedgerKey)
    ensures a.Account? && b.Account? ==> (Less(a, b) <==> a.accountID < b.accountID)
    ensures a.TrustLine? && b.TrustLine? ==>
      (Less(a, b) <==> a.holderID < b.holderID || (a.holderID == b.holderID && a.asset < b.asset))
    ensures a.Offer? && b.Offer? ==>
      (Less(a, b) <==> a.sellerID < b.sellerID || (a.sellerID == b.sellerID && a.offerID < b.offerID))
    ensures a.Data? && b.Data? ==>
      (Less(a, b) <==> a.ownerID < b.ownerID || (a.ownerID == b.ownerID && NameLess(a.dataName, b.dataName)))
    ensures a.ClaimableBalance? && b.ClaimableBalance? ==> (Less(a, b) <==> a.balanceID < b.balanceID)
  {
    hide LexLess;
    var x, y := Fields(a), Fields(b);
    if x[0] == y[0] {
      LexPair(x, y);
      LexOne(0, 0);
      match a
      case TrustLine(_, _) =>
        assert x[2..] == [a.asset] && y[2..] == [b.asset];
        LexOne(a.asset, b.asset);
      case Offer(_, _) =>
        assert x[2..] == [a.offerID] && y[2..] == [b.offerID];
        LexOne(a.offerID, b.offerID);
      case Data(_, _) =>
        assert x[2..] == Codes(a.dataName) && y[2..] == Codes(b.dataName);
        LexNames(a.dataName, b.dataName);
      case _ =>
        assert x[2..] == [] && y[2..] == [];
    }
  }

  /** At the first place where they differ the smaller name has the smaller character, or has ended. */
  ghost predicate NameLess(s: string, t: string) {
    exists i: nat :: DifferAt(s, t, i)
  }

  /** Names that agree up to `i`, where the smaller one ends or has the smaller character. */
  predicate DifferAt(s: string, t: string, i: nat) {
    i <= |s| && i < |t| && s[..i] == t[..i] && (i == |s| || s[i] < t[i])
  }

  lemma {:induction false} LexNames(s: string, t: string)
    ensures LexLess(Codes(s), Codes(t)) <==> NameLess(s, t)
  {
    hide DifferAt;
    var x, y := Codes(s), Codes(t);
    if t == [] {
      NothingBelow(s);
    } else if s == [] {
      NoneFirst(t);
    } else {
      assert x[1..] == Codes(s[1..]) && y[1..] == Codes(t[1..]);
      LexNames(s[1..], t[1..]);
      NamesAfterFirst(s, t);
    }
  }

  lemma NothingBelow(s: string)
    ensures !NameLess(s, [])
  {
  }

  lemma NoneFirst(t: string)
    requires t != []
    ensures NameLess([], t)
  {
    assert DifferAt([], t, 0);
  }

  lemma DifferLater(s: string, t: string, i: nat)
    requires s != [] && t != []
    ensures DifferAt(s, t, 0) <==> s[0] < t[0]
    ensures i > 0 ==> (DifferAt(s, t, i) <==> s[0] == t[0] && DifferAt(s[1..], t[1..], i - 1))
  {
    assert s[..0] == t[..0];
    if 0 < i <= |s| && i < |t| {
      assert s[..i] == [s[0]] + s[1..][..i - 1] && t[..i] == [t[0]] + t[1..][..i - 1];
      assert s[..i][0] == s[0] && t[..i][0] == t[0] && s[..i][1..] == s[1..][..i - 1] && t[..i][1..] == t[1..][..i - 1];
    }
  }

  lemma NamesAfterFirst(s: string, t: string)
    requires s != [] && t != []
    ensures NameLess(s, t) <==> s[0] < t[0] || (s[0] == t[0] && NameLess(s[1..], t[1..]))
  {
    hide DifferAt;
    DifferLater(s, t, 0);
    if s[0] == t[0] && NameLess(s[1..], t[1..]) {
      var i: nat :| DifferAt(s[1..], t[1..], i);
      DifferLater(s, t, i + 1);
    }
    if NameLess(s, t) {
      var i: nat :| DifferAt(s, t, i);
      DifferLater(s, t, i);
      if i > 0 {
        var j := i - 1;
        assert DifferAt(s[1..], t[1..], j);
      }
    }
  }
}
