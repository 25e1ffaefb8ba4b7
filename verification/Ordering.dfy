/** Orders on names, and the one sequence that lists a set in a given strict order.
    Go's sort package is not modelled as an algorithm: whatever it does, its result on a
    strict order is this sequence (ListingIsUnique). */
module Ordering {

  /** Go's `<` on strings: lexicographic by character. */
  predicate StrLess(a: string, b: string) {
    b != [] && (a == [] || a[0] < b[0] || (a[0] == b[0] && StrLess(a[1..], b[1..])))
  }

  /** It is decided at the first place where the two differ, by the smaller character or by the
      end of the shorter one. */
  lemma {:induction false} StrLessIff(a: string, b: string)
    ensures StrLess(a, b) <==>
            exists i :: 0 <= i <= |a| && i < |b| && a[..i] == b[..i] && (i == |a| || a[i] < b[i])
    decreases |a|
  {
    if a != [] && b != [] {
      StrLessIff(a[1..], b[1..]);
      if a[0] < b[0] { assert a[..0] == b[..0]; }
      if i :| a[0] == b[0] && 0 <= i < |b[1..]| && i <= |a[1..]| && a[1..][..i] == b[1..][..i] && (i == |a[1..]| || a[1..][i] < b[1..][i]) {
        assert a[..i + 1] == [a[0]] + a[1..][..i] && b[..i + 1] == [b[0]] + b[1..][..i];
      }
      if i :| 0 <= i <= |a| && i < |b| && a[..i] == b[..i] && (i == |a| || a[i] < b[i]) && i > 0 {
        assert a[..i][0] == b[..i][0];
        assert a[1..][..i - 1] == a[..i][1..] && b[1..][..i - 1] == b[..i][1..];
      }
    } else if b != [] {
      assert a[..0] == b[..0];
    }
  }

  lemma StrLessIrreflexive(a: string)
    ensures !StrLess(a, a)
  {}

  lemma StrLessTotal(a: string, b: string)
    requires a != b
    ensures StrLess(a, b) || StrLess(b, a)
  {
    if a != [] && b != [] && a[0] == b[0] {
      assert a == [a[0]] + a[1..] && b == [b[0]] + b[1..];
      StrLessTotal(a[1..], b[1..]);
    }
  }

  lemma StrLessTransitive(a: string, b: string, c: string)
    requires StrLess(a, b) && StrLess(b, c)
    ensures StrLess(a, c)
  {
    if a != [] && a[0] == b[0] == c[0] {
      StrLessTransitive(a[1..], b[1..], c[1..]);
    }
  }

  /** The order as a function value, named so that every use denotes the same value. */
  function NameOrder(): (string, string) -> bool {
    (a, b) => StrLess(a, b)
  }

  ghost predicate StrictOrderOn<T(!new)>(less: (T, T) -> bool, s: set<T>) {
    && (forall x | x in s :: !less(x, x))
    && (forall x, y | x in s && y in s && x != y :: less(x, y) || less(y, x))
    && (forall x, y, z | x in s && y in s && z in s && less(x, y) && less(y, z) :: less(x, z))
  }

  ghost predicate Ascending<T(!new)>(less: (T, T) -> bool, xs: seq<T>) {
    forall i, j | 0 <= i < j < |xs| :: less(xs[i], xs[j])
  }

  ghost function Elements<T>(xs: seq<T>): set<T> {
    set x | x in xs
  }

  /** xs names every member of s once, in ascending order. */
  ghost predicate Lists<T(!new)>(less: (T, T) -> bool, xs: seq<T>, s: set<T>) {
    Ascending(less, xs) && Elements(xs) == s
  }

  function Insert<T(!new)>(less: (T, T) -> bool, x: T, xs: seq<T>): (r: seq<T>)
    ensures forall y :: y in r <==> y == x || y in xs
  {
    if xs == [] || less(x, xs[0]) then [x] + xs
    else
      [xs[0]] + Insert(less, x, xs[1..])
  }

  lemma InsertKeepsOrder<T(!new)>(less: (T, T) -> bool, x: T, xs: seq<T>, s: set<T>)
    requires StrictOrderOn(less, s) && x in s && (forall y | y in xs :: y in s)
    requires Ascending(less, xs) && x !in xs
    ensures Ascending(less, Insert(less, x, xs))
  {
    if xs != [] && !less(x, xs[0]) {
      var rest := xs[1..];
      InsertKeepsOrder(less, x, rest, s);
      var r := Insert(less, x, xs);
      assert xs == [xs[0]] + rest;
      forall j | 1 <= j < |r| ensures less(r[0], r[j]) {
        assert r[j] in Insert(less, x, rest);
      }
    } else if xs != [] {
      assert forall j | 0 <= j < |xs| :: less(x, xs[j]);
    }
  }

  /** What sort.Slice and sort.Strings leave behind. */
  function Sort<T(!new)>(less: (T, T) -> bool, xs: seq<T>): (r: seq<T>)
    ensures forall y :: y in r <==> y in xs
  {
    if xs == [] then [] else
    Insert(less, xs[0], Sort(less, xs[1..]))
  }

  lemma SortLists<T(!new)>(less: (T, T) -> bool, xs: seq<T>, s: set<T>)
    requires StrictOrderOn(less, s) && Elements(xs) <= s
    requires forall i, j | 0 <= i < j < |xs| :: xs[i] != xs[j]
    ensures Lists(less, Sort(less, xs), Elements(xs))
  {
    if xs != [] {
      assert forall y | y in xs :: y in Elements(xs);
      SortLists(less, xs[1..], s);
      assert xs[0] !in xs[1..];
      InsertKeepsOrder(less, xs[0], Sort(less, xs[1..]), s);
    }
  }

  ghost predicate Listable<T(!new)>(less: (T, T) -> bool, s: set<T>) {
    exists xs :: Lists(less, xs, s)
  }

  /** xs names the members of s, in ascending order if there is such an order at all. */
  ghost predicate IsListing<T(!new)>(less: (T, T) -> bool, xs: seq<T>, s: set<T>) {
    Elements(xs) == s && (Listable(less, s) ==> Ascending(less, xs))
  }

  /** The ascending listing of a set. */
  ghost function Listing<T(!new)>(less: (T, T) -> bool, s: set<T>): (r: seq<T>)
    ensures forall x :: x in r <==> x in s
  {
    ListingExists(less, s);
    var xs :| IsListing(less, xs, s);
    assert forall x :: x in xs <==> x in Elements(xs);
    xs
  }

  lemma ListingExists<T(!new)>(less: (T, T) -> bool, s: set<T>)
    ensures exists xs :: IsListing(less, xs, s)
  {
    if Listable(less, s) {
      var xs :| Lists(less, xs, s);
      assert IsListing(less, xs, s);
    } else {
      var xs := SomeOrder(s);
      assert IsListing(less, xs, s);
    }
  }

  lemma {:induction false} SomeOrder<T(!new)>(s: set<T>) returns (xs: seq<T>)
    ensures Elements(xs) == s && forall x :: x in xs <==> x in s
    decreases s
  {
    xs := [];
    if s != {} {
      var x :| x in s;
      var rest := SomeOrder(s - {x});
      xs := [x] + rest;
    }
  }

  /** A strict order lists every set. */
  lemma {:induction false} StrictOrderLists<T(!new)>(less: (T, T) -> bool, s: set<T>, all: set<T>) returns (xs: seq<T>)
    requires StrictOrderOn(less, all) && s <= all
    ensures Lists(less, xs, s)
    decreases s
  {
    if s == {} {
      xs := [];
    } else {
      var x :| x in s;
      var rest := StrictOrderLists(less, s - {x}, all);
      assert forall y :: y in rest <==> y in Elements(rest);
      xs := Insert(less, x, rest);
      InsertKeepsOrder(less, x, rest, all);
      assert Elements(xs) == s;
    }
  }

  lemma ListingLists<T(!new)>(less: (T, T) -> bool, s: set<T>)
    requires StrictOrderOn(less, s)
    ensures Lists(less, Listing(less, s), s)
  {
    var xs := StrictOrderLists(less, s, s);
  }

  /** A strict order leaves no choice: any two ascending listings of a set are the same
      sequence, so the order in which a Go map is ranged over cannot show. */
  lemma {:induction false} ListingIsUnique<T(!new)>(less: (T, T) -> bool, xs: seq<T>, ys: seq<T>, s: set<T>)
    requires StrictOrderOn(less, s) && Lists(less, xs, s) && Lists(less, ys, s)
    ensures xs == ys
    decreases |xs|
  {
    assert forall x | x in xs :: x in Elements(xs);
    assert forall y | y in ys :: y in Elements(ys);
    assert xs == [] ==> Elements(xs) == {} && s == {};
    assert ys != [] ==> ys[0] in s;
    if xs != [] {
      assert xs[0] in Elements(xs);
      assert xs[0] in ys && ys[0] in Elements(ys);
      assert ys[0] in xs;
      assert xs[0] == ys[0];
      assert xs == [xs[0]] + xs[1..] && ys == [ys[0]] + ys[1..];
      assert xs[0] !in xs[1..] && ys[0] !in ys[1..];
      assert Elements(xs[1..]) == s - {xs[0]};
      assert Elements(ys[1..]) == s - {xs[0]};
      ListingIsUnique(less, xs[1..], ys[1..], s - {xs[0]});
    }
  }

  lemma NameOrderIsStrict(s: set<string>)
    ensures StrictOrderOn(NameOrder(), s)
  {
    forall x ensures !StrLess(x, x) { StrLessIrreflexive(x); }
    forall x, y | x != y ensures StrLess(x, y) || StrLess(y, x) { StrLessTotal(x, y); }
    forall x, y, z | StrLess(x, y) && StrLess(y, z) ensures StrLess(x, z) { StrLessTransitive(x, y, z); }
  }

  /** The order of one phase of a run: TXT after everything else, then by name.
      `types` gives the record type of each name being sorted. */
  predicate KeyLess(types: map<string, string>, a: string, b: string) {
    if a in types && b in types && types[a] != types[b] then types[a] != "TXT" else StrLess(a, b)
  }

  function KeyOrder(types: map<string, string>): (string, string) -> bool {
    (a, b) => KeyLess(types, a, b)
  }

  /** The comparator is a strict order exactly when at most one type besides TXT occurs:
      two other types would each claim to come before the other. */
  lemma KeyOrderIsStrictIff(types: map<string, string>)
    ensures StrictOrderOn(KeyOrder(types), types.Keys) <==>
            (forall a, b | a in types && b in types && types[a] != "TXT" && types[b] != "TXT" :: types[a] == types[b])
  {
    NameOrderIsStrict(types.Keys);
    var less := KeyOrder(types);
    forall a, b ensures less(a, b) == KeyLess(types, a, b) {}
    forall a, b ensures NameOrder()(a, b) == StrLess(a, b) {}
    if StrictOrderOn(less, types.Keys) {
      forall a, b | a in types && b in types && types[a] != "TXT" && types[b] != "TXT"
        ensures types[a] == types[b]
      {
        assert !less(a, a);
        assert !(less(a, b) && less(b, a));
      }
    }
  }

  lemma KeyOrderIsStrict(types: map<string, string>, s: set<string>)
    requires s <= types.Keys && forall a | a in types :: types[a] in {"A", "TXT"}
    ensures StrictOrderOn(KeyOrder(types), s)
  {
    KeyOrderIsStrictIff(types);
  }
}
