/**
 * `StationNavigatorFactory.create_from_station_list`: a stable sort of the
 * stations by their identifier without its numeric prefix, lower-cased,
 * then one `add_station` per sorted station.
 */
module NavigatorFactory {
  import opened Text
  import opened Navigator

  /** `get_name_without_prefix(station.dataset_id)`, the sort key. */
  function SortKey(s: Station): (k: string)
    ensures |k| <= |s.datasetId|
    ensures forall i :: 0 <= i < |k| ==> !IsUpper(k[i])
  {
    Lower(StripNumericPrefix(s.datasetId))
  }

  /** The key of a station named `<digits>-<rest>` is `rest`, lower-cased. */
  lemma SortKeyOfPrefixed(digits: string, rest: string, city: string)
    requires |digits| > 0 && AllDigits(digits)
    ensures SortKey(Station(digits + "-" + rest, city)) == Lower(rest)
  {
    StripNumericPrefixRemoves(digits, rest);
    assert digits + "-" + rest == digits + ("-" + rest);
  }

  /** Non-decreasing in `key`. */
  predicate SortedBy<T>(s: seq<T>, key: T -> string)
  {
    forall i, j :: 0 <= i < j < |s| ==> StrLe(key(s[i]), key(s[j]))
  }

  /** The elements of `s` whose key is `k`, in their order in `s`. */
  function WithKey<T>(s: seq<T>, key: T -> string, k: string): seq<T>
  {
    if s == [] then []
    else WithKey(s[..|s| - 1], key, k) + (if key(s[|s| - 1]) == k then [s[|s| - 1]] else [])
  }

  /** Places `x` after every element of the sorted `s` whose key is not greater than `x`'s. */
  function Insert<T>(s: seq<T>, x: T, key: T -> string): (r: seq<T>)
    ensures |r| == |s| + 1
  {
    if s == [] then [x]
    else if StrLe(key(s[|s| - 1]), key(x)) then s + [x]
    else Insert(s[..|s| - 1], x, key) + [s[|s| - 1]]
  }

  /** `sorted(s, key=key)`: insertion sort, stable like Python's. */
  function SortBy<T>(s: seq<T>, key: T -> string): (r: seq<T>)
    ensures |r| == |s|
  {
    if s == [] then [] else Insert(SortBy(s[..|s| - 1], key), s[|s| - 1], key)
  }

  lemma {:induction false} InsertPermutes<T>(s: seq<T>, x: T, key: T -> string)
    ensures multiset(Insert(s, x, key)) == multiset(s) + multiset{x}
  {
    if s != [] && !StrLe(key(s[|s| - 1]), key(x)) {
      InsertPermutes(s[..|s| - 1], x, key);
      assert s == s[..|s| - 1] + [s[|s| - 1]];
    }
  }

  lemma {:induction false} InsertSorted<T>(s: seq<T>, x: T, key: T -> string)
    requires SortedBy(s, key)
    ensures SortedBy(Insert(s, x, key), key)
  {
    if s == [] {
    } else if StrLe(key(s[|s| - 1]), key(x)) {
      forall i | 0 <= i < |s| ensures StrLe(key(s[i]), key(x)) {
        if i < |s| - 1 {
          StrLeTransitive(key(s[i]), key(s[|s| - 1]), key(x));
        }
      }
    } else {
      var init, last := s[..|s| - 1], s[|s| - 1];
      InsertSorted(init, x, key);
      StrLeTotal(key(last), key(x));
      InsertBounded(init, x, key, key(last));
    }
  }

  /** Inserting keeps every key below a common bound `b`. */
  lemma {:induction false} InsertBounded<T>(s: seq<T>, x: T, key: T -> string, b: string)
    requires forall i :: 0 <= i < |s| ==> StrLe(key(s[i]), b)
    requires StrLe(key(x), b)
    ensures forall i :: 0 <= i < |Insert(s, x, key)| ==> StrLe(key(Insert(s, x, key)[i]), b)
  {
    if s != [] && !StrLe(key(s[|s| - 1]), key(x)) {
      InsertBounded(s[..|s| - 1], x, key, b);
    }
  }

  /** Proof helper: `WithKey` of a sequence with one more element at the end. */
  lemma WithKeySnoc<T>(s: seq<T>, y: T, key: T -> string, k: string)
    ensures WithKey(s + [y], key, k) == WithKey(s, key, k) + (if key(y) == k then [y] else [])
  {
    assert (s + [y])[..|s + [y]| - 1] == s;
  }

  /** Stability of one insertion: among elements with key `k`, `x` comes after the ones already there. */
  lemma {:induction false} InsertStable<T>(s: seq<T>, x: T, key: T -> string, k: string)
    requires SortedBy(s, key)
    ensures WithKey(Insert(s, x, key), key, k) == WithKey(s, key, k) + (if key(x) == k then [x] else [])
  {
    if s == [] {
      WithKeySnoc([], x, key, k);
    } else if StrLe(key(s[|s| - 1]), key(x)) {
      WithKeySnoc(s, x, key, k);
    } else {
      var init, last := s[..|s| - 1], s[|s| - 1];
      assert s == init + [last];
      InsertStable(init, x, key, k);
      var r := Insert(init, x, key);
      assert Insert(s, x, key) == r + [last];
      WithKeySnoc(r, last, key, k);
      WithKeySnoc(init, last, key, k);
      StrLtIrreflexive(key(x));
      if key(x) == k {
        assert key(last) != k;
      }
    }
  }

  /** `SortBy` orders by the key. */
  lemma {:induction false} SortBySorted<T>(s: seq<T>, key: T -> string)
    ensures SortedBy(SortBy(s, key), key)
  {
    if s != [] {
      SortBySorted(s[..|s| - 1], key);
      InsertSorted(SortBy(s[..|s| - 1], key), s[|s| - 1], key);
    }
  }

  /** `SortBy` keeps every element, as often as it occurs. */
  lemma {:induction false} SortByPermutes<T>(s: seq<T>, key: T -> string)
    ensures multiset(SortBy(s, key)) == multiset(s)
  {
    if s != [] {
      var init, last := s[..|s| - 1], s[|s| - 1];
      SortByPermutes(init, key);
      InsertPermutes(SortBy(init, key), last, key);
      assert s == init + [last];
    }
  }

  /** `SortBy` is stable: the elements sharing a key keep their input order. */
  lemma {:induction false} SortByStable<T>(s: seq<T>, key: T -> string, k: string)
    ensures WithKey(SortBy(s, key), key, k) == WithKey(s, key, k)
  {
    if s != [] {
      var init, last := s[..|s| - 1], s[|s| - 1];
      SortByStable(init, key, k);
      SortBySorted(init, key);
      InsertStable(SortBy(init, key), last, key, k);
    }
  }

  /**
   * `create_from_station_list`: the navigator holds the sorted stations,
   * all of them, and starts on the first one (position 1), or is empty.
   */
  method CreateFromStationList(stations: seq<Station>) returns (nav: StationLinkedList)
    ensures fresh(nav) && nav.Valid()
    ensures nav.Contents() == SortBy(stations, SortKey)
    ensures SortedBy(nav.Contents(), SortKey) && multiset(nav.Contents()) == multiset(stations)
    ensures forall k :: WithKey(nav.Contents(), SortKey, k) == WithKey(stations, SortKey, k)
    ensures |nav.Contents()| == |stations|
    ensures nav.Position() == if stations == [] then 0 else 1
  {
    var sorted := SortBy(stations, SortKey);
    nav := AddAll(sorted);
    SortBySorted(stations, SortKey);
    SortByPermutes(stations, SortKey);
    forall k ensures WithKey(sorted, SortKey, k) == WithKey(stations, SortKey, k) {
      SortByStable(stations, SortKey, k);
    }
  }

  /** A new navigator, then one `add_station` per station, in order. */
  method AddAll(stations: seq<Station>) returns (nav: StationLinkedList)
    ensures fresh(nav) && nav.Valid()
    ensures nav.Contents() == stations
    ensures nav.Position() == if stations == [] then 0 else 1
  {
    nav := new StationLinkedList();
    for i := 0 to |stations|
      invariant fresh(nav) && nav.Valid()
      invariant nav.tail == null || fresh(nav.tail)
      invariant nav.Contents() == stations[..i]
      invariant nav.Position() == if i == 0 then 0 else 1
    {
      nav.AddStation(stations[i]);
      assert stations[..i + 1] == stations[..i] + [stations[i]];
    }
    assert stations[..|stations|] == stations;
  }

  /**
   * The prefix plays no part in the order: stations named `<d1>-zoo`,
   * `<d2>-apple` and `<d3>-mango`, whatever the digits, come out as apple,
   * mango, zoo.
   */
  lemma FactoryOrderExample(d1: string, d2: string, d3: string, city: string)
    requires |d1| > 0 && AllDigits(d1) && |d2| > 0 && AllDigits(d2) && |d3| > 0 && AllDigits(d3)
    ensures SortBy([Station(d1 + "-" + "zoo", city), Station(d2 + "-" + "apple", city), Station(d3 + "-" + "mango", city)], SortKey)
              == [Station(d2 + "-" + "apple", city), Station(d3 + "-" + "mango", city), Station(d1 + "-" + "zoo", city)]
  {
    SortKeyOfPrefixed(d1, "zoo", city);
    SortKeyOfPrefixed(d2, "apple", city);
    SortKeyOfPrefixed(d3, "mango", city);
    var zoo, apple, mango := Lower("zoo"), Lower("apple"), Lower("mango");
    assert zoo[0] == 'z' && apple[0] == 'a' && mango[0] == 'm';
    assert !StrLe(zoo, apple) && !StrLe(zoo, mango) && StrLe(apple, mango);
    SortThree(Station(d1 + "-" + "zoo", city), Station(d2 + "-" + "apple", city), Station(d3 + "-" + "mango", city), SortKey);
  }

  /** Sorting three elements whose keys order them as `b`, `c`, `a`. */
  lemma SortThree<T>(a: T, b: T, c: T, key: T -> string)
    requires !StrLe(key(a), key(b)) && !StrLe(key(a), key(c)) && StrLe(key(b), key(c))
    ensures SortBy([a, b, c], key) == [b, c, a]
  {
    assert [a][..0] == [] && [a, b][..1] == [a] && [a, b, c][..2] == [a, b];
    assert SortBy([a], key) == [a];
    assert Insert([a], b, key) == [b, a];
    assert [b, a][..1] == [b];
    assert Insert([b], c, key) == [b, c];
    assert Insert([b, a], c, key) == [b, c, a];
  }
}
