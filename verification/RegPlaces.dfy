/** The keys of a registry tree by their places, and that the listing of the export is these keys, each once, with its
    own name and values, in the order of the tree (PackageEditor/RegistryFunctions.cs). */
module RegPlaces {
  import opened RegFile
  import opened RegTransfer

  /** The way down to a key: at each step the number of a subkey. */
  type Place = seq<nat>

  predicate IsPlace(key: RegKey, p: Place)
    decreases |p|
  {
    p == [] || (p[0] < |key.subkeys| && IsPlace(key.subkeys[p[0]], p[1..]))
  }

  function KeyAt(key: RegKey, p: Place): RegKey
    requires IsPlace(key, p)
    decreases |p|
  {
    if p == [] then key else KeyAt(key.subkeys[p[0]], p[1..])
  }

  /** In the tree, a key stands before the keys below it, and these stand in the order of the subkeys they are in. */
  predicate Earlier(a: Place, b: Place)
    decreases |a|
  {
    b != [] && (a == [] || a[0] < b[0] || (a[0] == b[0] && Earlier(a[1..], b[1..])))
  }

  /** The key has a name below the root, whose name has the given length with its backslash. */
  predicate Named(len: nat, key: RegKey, p: Place) {
    IsPlace(key, p) && len < |KeyAt(key, p).name|
  }

  /** A section has the name and the values of the key at a place. */
  predicate SectionAt(len: nat, key: RegKey, p: Place, s: RegSection) {
    Named(len, key, p) && s.keyName == KeyAt(key, p).name[len..] && s.values == KeyAt(key, p).values
  }

  predicate InTreeOrder(order: seq<Place>) {
    forall i, j :: 0 <= i < j < |order| ==> Earlier(order[i], order[j])
  }

  /** The sections are the keys of the tree that have a name, each once, with its values, in the order of the tree. */
  ghost predicate ListedAs(len: nat, key: RegKey, listing: seq<RegSection>, order: seq<Place>) {
    && |order| == |listing| && InTreeOrder(order)
    && (forall i :: 0 <= i < |order| ==> SectionAt(len, key, order[i], listing[i]))
    && (forall p :: Named(len, key, p) ==> p in order)
  }

  // ----- the listing of the export -----

  function Under(t: nat, ps: seq<Place>): (r: seq<Place>)
    ensures |r| == |ps| && forall i :: 0 <= i < |ps| ==> r[i] == [t] + ps[i]
  {
    seq(|ps|, i requires 0 <= i < |ps| => [t] + ps[i])
  }

  /** The places of a tree that have a name, in order. */
  function Places(len: nat, key: RegKey): seq<Place>
    decreases key, |key.subkeys| + 1
  {
    (if len < |key.name| then [[]] else []) + PlacesFrom(len, key, 0)
  }

  function PlacesFrom(len: nat, key: RegKey, t: nat): seq<Place>
    requires t <= |key.subkeys|
    decreases key, |key.subkeys| - t
  {
    if t == |key.subkeys| then []
    else Under(t, Places(len, key.subkeys[t])) + PlacesFrom(len, key, t + 1)
  }

  /** The places in the subkeys from `low` to before `high`. */
  ghost predicate ListedPart(len: nat, key: RegKey, listing: seq<RegSection>, order: seq<Place>, low: nat, high: nat) {
    && |order| == |listing| && InTreeOrder(order)
    && (forall i :: 0 <= i < |order| ==> SectionAt(len, key, order[i], listing[i]) && Within(order[i], low, high))
    && (forall p :: Named(len, key, p) && Within(p, low, high) ==> p in order)
  }

  predicate Within(p: Place, low: nat, high: nat) {
    p != [] && low <= p[0] < high
  }

  lemma PlaceBelow(len: nat, key: RegKey, t: nat, p: Place)
    requires t < |key.subkeys|
    ensures Named(len, key, [t] + p) <==> Named(len, key.subkeys[t], p)
    ensures Named(len, key, [t] + p) ==> KeyAt(key, [t] + p) == KeyAt(key.subkeys[t], p)
  {
    assert ([t] + p)[1..] == p;
  }

  lemma UnderListed(len: nat, key: RegKey, t: nat, listing: seq<RegSection>, ps: seq<Place>)
    requires t < |key.subkeys| && ListedAs(len, key.subkeys[t], listing, ps)
    ensures ListedPart(len, key, listing, Under(t, ps), t, t + 1)
  {
    hide Named, KeyAt, IsPlace;
    var order := Under(t, ps);
    forall i | 0 <= i < |order| ensures SectionAt(len, key, order[i], listing[i]) && Within(order[i], t, t + 1) {
      assert SectionAt(len, key.subkeys[t], ps[i], listing[i]);
      PlaceBelow(len, key, t, ps[i]);
    }
    forall i, j | 0 <= i < j < |order| ensures Earlier(order[i], order[j]) {
      assert order[i][1..] == ps[i] && order[j][1..] == ps[j];
    }
    forall p | Named(len, key, p) && Within(p, t, t + 1) ensures p in order {
      assert p == [t] + p[1..];
      PlaceBelow(len, key, t, p[1..]);
      var i :| 0 <= i < |ps| && ps[i] == p[1..];
      assert order[i] == p;
    }
  }

  lemma PartsAppend(len: nat, key: RegKey, a: seq<RegSection>, b: seq<RegSection>, oa: seq<Place>, ob: seq<Place>,
                    low: nat, mid: nat, high: nat)
    requires ListedPart(len, key, a, oa, low, mid) && ListedPart(len, key, b, ob, mid, high) && low <= mid <= high
    ensures ListedPart(len, key, a + b, oa + ob, low, high)
  {
    hide SectionAt, Named;
    var order := oa + ob;
    forall i, j | 0 <= i < j < |order| ensures Earlier(order[i], order[j]) {
      if i < |oa| <= j { assert Within(oa[i], low, mid) && Within(ob[j - |oa|], mid, high); }
    }
  }

  lemma {:induction false} SubkeysListed(len: nat, key: RegKey, t: nat)
    requires t <= |key.subkeys|
    ensures ListedPart(len, key, ListingFrom(len, key, t), PlacesFrom(len, key, t), t, |key.subkeys|)
    decreases key, |key.subkeys| - t
  {
    hide ListedPart, ListedAs;
    if t == |key.subkeys| {
      NoneListed(len, key, t);
    } else {
      var sub := key.subkeys[t];
      TreeListed(len, sub);
      UnderListed(len, key, t, Listing(len, sub), Places(len, sub));
      SubkeysListed(len, key, t + 1);
      PartsAppend(len, key, Listing(len, sub), ListingFrom(len, key, t + 1), Under(t, Places(len, sub)),
                  PlacesFrom(len, key, t + 1), t, t + 1, |key.subkeys|);
    }
  }

  lemma NoneListed(len: nat, key: RegKey, t: nat)
    ensures ListedPart(len, key, [], [], t, t)
  {
  }

  /** The export lists the keys of the tree. */
  lemma {:induction false} TreeListed(len: nat, key: RegKey)
    ensures ListedAs(len, key, Listing(len, key), Places(len, key))
    decreases key, |key.subkeys| + 1
  {
    SubkeysListed(len, key, 0);
    var below, places := ListingFrom(len, key, 0), PlacesFrom(len, key, 0);
    OwnListed(len, key, below, places);
  }

  lemma OwnListed(len: nat, key: RegKey, below: seq<RegSection>, places: seq<Place>)
    requires ListedPart(len, key, below, places, 0, |key.subkeys|)
    ensures ListedAs(len, key, OwnSection(len, key) + below, (if len < |key.name| then [[]] else []) + places)
  {
    hide ListedPart, ListedAs;
    if len < |key.name| {
      NamedListed(len, key, below, places);
    } else {
      UnnamedListed(len, key, below, places);
      assert [] + below == below && [] + places == places;
    }
  }

  lemma UnnamedListed(len: nat, key: RegKey, below: seq<RegSection>, places: seq<Place>)
    requires ListedPart(len, key, below, places, 0, |key.subkeys|) && |key.name| <= len
    ensures ListedAs(len, key, below, places)
  {
    forall p | Named(len, key, p) ensures p in places {
      assert Within(p, 0, |key.subkeys|);
    }
  }

  lemma NamedListed(len: nat, key: RegKey, below: seq<RegSection>, places: seq<Place>)
    requires ListedPart(len, key, below, places, 0, |key.subkeys|) && len < |key.name|
    ensures ListedAs(len, key, [RegSection(key.name[len..], key.values)] + below, [[]] + places)
  {
    var listing, order := [RegSection(key.name[len..], key.values)] + below, [[]] + places;
    assert SectionAt(len, key, [], listing[0]);
    hide SectionAt;
    forall p | Named(len, key, p) ensures p in order {
      if p == [] {
        assert order[0] == p;
      } else {
        assert Within(p, 0, |key.subkeys|) && p in places;
      }
    }
    hide Named;
    forall i, j | 0 <= i < j < |order| ensures Earlier(order[i], order[j]) {
      assert order[j] == places[j - 1] && Within(places[j - 1], 0, |key.subkeys|);
      if i > 0 { assert Earlier(places[i - 1], places[j - 1]); }
    }
  }

  // ----- the listing is the only one -----

  lemma {:induction false} NotBoth(a: Place, b: Place)
    ensures !(Earlier(a, b) && Earlier(b, a)) && !Earlier(a, a)
    decreases |a|
  {
    if a != [] {
      NotBoth(a[1..], if b == [] then [] else b[1..]);
    }
  }

  lemma TailInOrder(order: seq<Place>)
    requires InTreeOrder(order) && order != []
    ensures InTreeOrder(order[1..]) && order[0] !in order[1..]
  {
    NotBoth(order[0], order[0]);
  }

  lemma SameFirst(a: seq<Place>, b: seq<Place>)
    requires InTreeOrder(a) && InTreeOrder(b) && a != [] && b != [] && a[0] in b && b[0] in a
    ensures a[0] == b[0]
  {
    var i :| 0 <= i < |b| && b[i] == a[0];
    var j :| 0 <= j < |a| && a[j] == b[0];
    NotBoth(a[0], b[0]);
  }

  lemma {:induction false} SameOrder(a: seq<Place>, b: seq<Place>)
    requires InTreeOrder(a) && InTreeOrder(b) && forall p :: p in a <==> p in b
    ensures a == b
  {
    if a == [] {
      assert forall i :: 0 <= i < |b| ==> b[i] in b;
    } else {
      assert a[0] in a;
      assert b != [] && b[0] in b;
      SameFirst(a, b);
      TailInOrder(a);
      TailInOrder(b);
      forall p ensures p in a[1..] <==> p in b[1..] {
        assert p in a <==> p == a[0] || p in a[1..];
        assert p in b <==> p == b[0] || p in b[1..];
      }
      SameOrder(a[1..], b[1..]);
      assert a == [a[0]] + a[1..] && b == [b[0]] + b[1..];
    }
  }

  /** Sections that are the keys of a tree. */
  ghost predicate GivesBack(len: nat, key: RegKey, sections: seq<RegSection>) {
    exists order :: ListedAs(len, key, sections, order)
  }

  /** Only the listing of the export is. */
  lemma OnlyListing(len: nat, key: RegKey, sections: seq<RegSection>)
    ensures GivesBack(len, key, sections) <==> sections == Listing(len, key)
  {
    var listing, places := Listing(len, key), Places(len, key);
    TreeListed(len, key);
    if order :| ListedAs(len, key, sections, order) {
      forall p ensures p in order <==> p in places {
        if i :| 0 <= i < |order| && order[i] == p { assert SectionAt(len, key, order[i], sections[i]); }
        if i :| 0 <= i < |places| && places[i] == p { assert SectionAt(len, key, places[i], listing[i]); }
      }
      SameOrder(order, places);
      forall i | 0 <= i < |sections| ensures sections[i] == listing[i] {
        assert SectionAt(len, key, order[i], sections[i]) && SectionAt(len, key, places[i], listing[i]);
      }
    }
  }
}
