/** Where the Shamir x-coordinates come from (internal/tss/dkg.go): the bytes of a party's name
    read as one big-endian number. */
module PartyIds {
  import opened Bytes
  import opened Congruence
  import opened PrimeField
  import opened Shamir

  type Name = seq<Byte>

  function KeyOf(name: Name): nat {
    BE(name)
  }

  function Keys(names: seq<Name>): (r: seq<nat>)
    ensures |r| == |names|
  {
    seq(|names|, i requires 0 <= i < |names| => KeyOf(names[i]))
  }

  /** The name without its leading NUL bytes. */
  function Strip(s: Name): Name {
    if s != [] && s[0] == 0 then Strip(s[1..]) else s
  }

  lemma {:induction false} StripAppend(s: Name, b: Byte)
    ensures Strip(s + [b]) == if Strip(s) == [] then (if b == 0 then [] else [b]) else Strip(s) + [b]
  {
    if s != [] && s[0] == 0 {
      assert (s + [b])[1..] == s[1..] + [b];
      StripAppend(s[1..], b);
    } else if s == [] {
      assert [b][1..] == [];
    }
  }

  lemma {:induction false} MinimalOfKey(s: Name)
    ensures Minimal(BE(s)) == Strip(s)
  {
    if s != [] {
      var t, b := s[..|s| - 1], s[|s| - 1];
      MinimalOfKey(t);
      StripAppend(t, b);
      assert s == t + [b];
      assert BE(s) / 256 == BE(t) && BE(s) % 256 == b;
    }
  }

  /** Two names share a key exactly when they differ by leading NULs only. */
  lemma KeysAgreeIff(a: Name, b: Name)
    ensures KeyOf(a) == KeyOf(b) <==> Strip(a) == Strip(b)
  {
    MinimalOfKey(a);
    MinimalOfKey(b);
    BEOfMinimal(BE(a));
    BEOfMinimal(BE(b));
  }

  lemma KeyReduced(a: Name, n: int)
    requires |a| <= 31 && Pow256(31) <= n
    ensures KeyOf(a) < n && (KeyOf(a) % n == 0 <==> Strip(a) == [])
  {
    BEBounded(a);
    Pow256Monotone(|a|, 31);
    ModUnique(KeyOf(a), 0, KeyOf(a), n);
    KeysAgreeIff(a, []);
  }

  lemma KeysCongruentIff(a: Name, b: Name, n: int)
    requires |a| <= 31 && |b| <= 31 && Pow256(31) <= n
    ensures Cong(KeyOf(a), KeyOf(b), n) <==> Strip(a) == Strip(b)
  {
    KeyReduced(a, n);
    KeyReduced(b, n);
    KeysAgreeIff(a, b);
    if Cong(KeyOf(a), KeyOf(b), n) {
      CongReduced(KeyOf(a), KeyOf(b), n);
    } else if KeyOf(a) == KeyOf(b) {
      FromQuotient(KeyOf(a), KeyOf(b), 0, n);
    }
  }

  /** Names of at most 31 bytes give usable Shamir coordinates modulo a prime above 2^248 exactly
      when they are distinct and not empty after removing leading NULs. */
  lemma KeysArePointsIff(names: seq<Name>, n: int)
    requires IsPrime(n) && Pow256(31) <= n && forall i :: 0 <= i < |names| ==> |names[i]| <= 31
    ensures Points(Keys(names), n) <==>
            && (forall i :: 0 <= i < |names| ==> Strip(names[i]) != [])
            && (forall i, j :: 0 <= i < j < |names| ==> Strip(names[i]) != Strip(names[j]))
  {
    hide Cong, Strip;
    var keys := Keys(names);
    forall i | 0 <= i < |names|
      ensures keys[i] % n != 0 <==> Strip(names[i]) != []
    {
      KeyReduced(names[i], n);
    }
    forall i, j | 0 <= i < j < |names|
      ensures Cong(keys[i], keys[j], n) <==> Strip(names[i]) == Strip(names[j])
    {
      KeysCongruentIff(names[i], names[j], n);
    }
  }

  // ----- sorting -----

  /** The order tss.SortPartyIDs leaves behind: ascending keys. */
  function Insert(name: Name, sorted: seq<Name>): seq<Name> {
    if sorted == [] || KeyOf(name) <= KeyOf(sorted[0]) then [name] + sorted
    else [sorted[0]] + Insert(name, sorted[1..])
  }

  function MakeSortedPartyIDs(names: seq<Name>): seq<Name> {
    if names == [] then [] else Insert(names[0], MakeSortedPartyIDs(names[1..]))
  }

  ghost predicate Ascending(s: seq<Name>) {
    s == [] || ((forall x :: x in s[1..] ==> KeyOf(s[0]) <= KeyOf(x)) && Ascending(s[1..]))
  }

  lemma {:induction false} InsertMembers(name: Name, s: seq<Name>)
    ensures multiset(Insert(name, s)) == multiset(s) + multiset{name}
    ensures forall x :: x in Insert(name, s) <==> x == name || x in s
  {
    if s != [] && KeyOf(name) > KeyOf(s[0]) {
      InsertMembers(name, s[1..]);
      assert s == [s[0]] + s[1..];
    }
  }

  lemma {:induction false} InsertKeepsOrder(name: Name, s: seq<Name>)
    requires Ascending(s)
    ensures Ascending(Insert(name, s))
  {
    hide KeyOf;
    if s != [] && KeyOf(name) > KeyOf(s[0]) {
      InsertKeepsOrder(name, s[1..]);
      InsertMembers(name, s[1..]);
      assert Insert(name, s)[1..] == Insert(name, s[1..]);
    } else {
      assert ([name] + s)[1..] == s;
    }
  }

  lemma NothingAscends()
    ensures Ascending([])
  {
  }

  lemma {:induction false} SortedIsPermutation(names: seq<Name>)
    ensures Ascending(MakeSortedPartyIDs(names))
    ensures multiset(MakeSortedPartyIDs(names)) == multiset(names)
  {
    hide Insert, Ascending;
    if names == [] {
      NothingAscends();
    } else {
      SortedIsPermutation(names[1..]);
      InsertKeepsOrder(names[0], MakeSortedPartyIDs(names[1..]));
      InsertMembers(names[0], MakeSortedPartyIDs(names[1..]));
      assert names == [names[0]] + names[1..];
    }
  }

  lemma HeadIsLeast(s: seq<Name>, x: Name)
    requires Ascending(s) && x in s
    ensures KeyOf(s[0]) <= KeyOf(x)
  {
    assert s == [s[0]] + s[1..];
  }

  /** No two different names of m have the same key. */
  ghost predicate KeysTellApart(m: multiset<Name>) {
    forall a, b :: a in m && b in m && KeyOf(a) == KeyOf(b) ==> a == b
  }

  lemma HeadsAgree(s: seq<Name>, t: seq<Name>)
    requires s != [] && t != [] && Ascending(s) && Ascending(t) && multiset(s) == multiset(t)
    requires KeysTellApart(multiset(s))
    ensures s[0] == t[0] && multiset(s[1..]) == multiset(t[1..]) && multiset(s[1..]) <= multiset(s)
  {
    hide KeyOf, Ascending;
    assert s[0] in multiset(s) && t[0] in multiset(t);
    HeadIsLeast(s, t[0]);
    HeadIsLeast(t, s[0]);
    TailMembers(s);
    TailMembers(t);
  }

  lemma TailMembers(s: seq<Name>)
    requires s != []
    ensures multiset(s[1..]) == multiset(s) - multiset{s[0]}
  {
    assert s == [s[0]] + s[1..];
  }

  lemma FewerTellApart(m: multiset<Name>, k: multiset<Name>)
    requires KeysTellApart(m) && k <= m
    ensures KeysTellApart(k)
  {
  }

  /** Ascending sequences with the same members, no two of them with the same key, are the same sequence. */
  lemma {:induction false} AscendingUnique(s: seq<Name>, t: seq<Name>)
    requires Ascending(s) && Ascending(t) && multiset(s) == multiset(t)
    requires KeysTellApart(multiset(s))
    ensures s == t
  {
    hide KeysTellApart;
    assert |s| == |multiset(s)| == |t|;
    if s != [] {
      HeadsAgree(s, t);
      FewerTellApart(multiset(s), multiset(s[1..]));
      AscendingUnique(s[1..], t[1..]);
      assert s == [s[0]] + s[1..] && t == [t[0]] + t[1..];
    }
  }

  /** Both parties order the same names the same way, in whatever order they list them. */
  lemma SortIgnoresListing(names: seq<Name>, other: seq<Name>)
    requires multiset(names) == multiset(other) && KeysTellApart(multiset(names))
    ensures MakeSortedPartyIDs(names) == MakeSortedPartyIDs(other)
  {
    SortedIsPermutation(names);
    SortedIsPermutation(other);
    AscendingUnique(MakeSortedPartyIDs(names), MakeSortedPartyIDs(other));
  }

  /** findPartyID: the first party of that name, or none. */
  method FindPartyID(sorted: seq<Name>, id: Name) returns (found: bool, index: nat)
    ensures found <==> id in sorted
    ensures found ==> index < |sorted| && sorted[index] == id && id !in sorted[..index]
  {
    for i := 0 to |sorted|
      invariant id !in sorted[..i]
    {
      if sorted[i] == id {
        return true, i;
      }
    }
    return false, 0;
  }
}
