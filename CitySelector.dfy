/**
 * The search box of the city selector: the list shown under the box keeps,
 * in their original order, the cities whose lower-cased name contains the
 * lower-cased search term.
 */
module CitySelector {
  import opened TextOps

  /** A city as the selector lists it. */
  datatype City = City(id: int, name: string)

  /** The test applied to each city: case-insensitive `includes`. */
  predicate Matches(city: City, searchTerm: string) {
    Contains(Lower(city.name), Lower(searchTerm))
  }

  /** `a` is `b` with some elements removed and the rest left in order. */
  predicate IsSubsequence(a: seq<City>, b: seq<City>)
    decreases |b|
  {
    if a == [] then true
    else if b == [] then false
    else if a[0] == b[0] then IsSubsequence(a[1..], b[1..])
    else IsSubsequence(a, b[1..])
  }

  /** `filteredCities`: `cities.filter(city => Matches(city, searchTerm))`. */
  function FilterCities(cities: seq<City>, searchTerm: string): (r: seq<City>)
    ensures forall c :: c in r <==> c in cities && Matches(c, searchTerm)
    ensures IsSubsequence(r, cities)
    ensures |r| <= |cities|
  {
    if cities == [] then []
    else
      var rest := FilterCities(cities[1..], searchTerm);
      assert cities == [cities[0]] + cities[1..];
      if Matches(cities[0], searchTerm) then [cities[0]] + rest
      else
        SubsequenceOfTail(rest, cities);
        rest
  }

  /** Each matching city is listed as many times as it occurs in the input, every other city not at all. */
  lemma {:induction false} FilterCounts(cities: seq<City>, searchTerm: string)
    ensures forall c :: multiset(FilterCities(cities, searchTerm))[c]
                       == if Matches(c, searchTerm) then multiset(cities)[c] else 0
  {
    if cities != [] {
      var rest := FilterCities(cities[1..], searchTerm);
      FilterCounts(cities[1..], searchTerm);
      assert cities == [cities[0]] + cities[1..];
      assert multiset(cities) == multiset([cities[0]]) + multiset(cities[1..]);
      if Matches(cities[0], searchTerm) {
        assert multiset(FilterCities(cities, searchTerm)) == multiset([cities[0]]) + multiset(rest);
      } else {
        assert FilterCities(cities, searchTerm) == rest;
      }
    }
  }

  /** Dropping the head of `b` keeps every subsequence of its tail a subsequence of `b`. */
  lemma SubsequenceOfTail(a: seq<City>, b: seq<City>)
    requires b != [] && IsSubsequence(a, b[1..])
    ensures IsSubsequence(a, b)
    decreases |b|, 0
  {
    if a != [] && a[0] == b[0] {
      SubsequenceDropHead(a, b[1..]);
    }
  }

  /** A subsequence stays one when its head is dropped. */
  lemma {:induction false} SubsequenceDropHead(a: seq<City>, b: seq<City>)
    requires a != [] && IsSubsequence(a, b)
    ensures IsSubsequence(a[1..], b)
    decreases |b|, 1
  {
    assert b != [];
    if a[0] == b[0] {
      if a[1..] != [] {
        SubsequenceOfTail(a[1..], b);
      }
    } else {
      SubsequenceDropHead(a, b[1..]);
      if a[1..] != [] {
        SubsequenceOfTail(a[1..], b);
      }
    }
  }

  /** An empty search term lists every city. */
  lemma {:induction false} EmptyTermKeepsAll(cities: seq<City>)
    ensures FilterCities(cities, "") == cities
  {
    if cities != [] {
      assert StartsWith(Lower(cities[0].name), Lower(""));
      EmptyTermKeepsAll(cities[1..]);
    }
  }

  /** The case of the search term does not change the list. */
  lemma {:induction false} TermCaseIgnored(cities: seq<City>, searchTerm: string)
    ensures FilterCities(cities, Lower(searchTerm)) == FilterCities(cities, searchTerm)
  {
    LowerIdempotent(searchTerm);
    if cities != [] {
      TermCaseIgnored(cities[1..], searchTerm);
    }
  }

  /** The case of a city's name does not change whether it is listed. */
  lemma NameCaseIgnored(id: int, name: string, searchTerm: string)
    ensures Matches(City(id, name), searchTerm) == Matches(City(id, Lower(name)), searchTerm)
  {
    LowerIdempotent(name);
  }

  /** Filtering again with the same term changes nothing. */
  lemma {:induction false} FilterIdempotent(cities: seq<City>, searchTerm: string)
    ensures FilterCities(FilterCities(cities, searchTerm), searchTerm) == FilterCities(cities, searchTerm)
  {
    if cities != [] {
      FilterIdempotent(cities[1..], searchTerm);
    }
  }
}
