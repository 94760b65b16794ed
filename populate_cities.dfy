/**
 * The city-list generator tools/populate_cities.py: it keeps the GeoNames records of
 * cities with more than 100000 inhabitants as "name, CC", sorts them, and writes them one
 * per line to cities.txt, the file the inline handler reads at start-up. The download and
 * unzipping are I/O: the model starts from the decoded text's `splitlines()`.
 */
module PopulateCities {
  import opened Wrappers
  import opened Text
  import opened Lines
  import opened Sorting
  import Inline

  /** The GeoNames dump as `fetch_geonames_cities` obtains it: the request or the archive
      fails, or the lines of cities15000.txt. */
  datatype Download = Failed | Fetched(lines: seq<string>)

  /** A record needs at least this many tab-separated fields. */
  const MinFields: nat := 15
  /** Only cities above this population are kept. */
  const MinPopulation := 100000

  /** Python's `sorted` order on strings. */
  predicate StrOrder(a: string, b: string) {
    StrLe(a, b)
  }

  lemma StrOrderIsTotalOrder()
    ensures Total(StrOrder) && Transitive(StrOrder)
  {
    forall a, b ensures StrOrder(a, b) || StrOrder(b, a) {
      StrLeTotal(a, b);
    }
    forall a, b, c | StrOrder(a, b) && StrOrder(b, c) ensures StrOrder(a, c) {
      StrLeTransitive(a, b, c);
    }
  }

  /** The entry one line of the dump yields, if any: nothing for a blank line, a line with
      fewer than 15 fields, a population field `int()` rejects, or a population of at most
      100000; otherwise the name (field 1), ", " and the country code (field 8). */
  function CityEntry(line: string): Option<string> {
    if Strip(line) == [] then None
    else
      var parts := Split(line, '\t');
      if |parts| < MinFields then None
      else
        var population := ParseInt(parts[14]);
        if population.None? || population.value <= MinPopulation then None
        else Some(parts[1] + ", " + parts[8])
  }

  /** The entries of all lines, in line order, before sorting. */
  function Kept(lines: seq<string>): (r: seq<string>)
    ensures |r| <= |lines|
  {
    if lines == [] then []
    else
      var entry := CityEntry(lines[|lines| - 1]);
      Kept(lines[..|lines| - 1]) + (if entry.Some? then [entry.value] else [])
  }

  /** `fetch_geonames_cities`: the filtering loop, then `cities.sort()`. A failed download
      gives the empty list. */
  method FetchCities(download: Download) returns (cities: seq<string>)
    ensures download.Failed? ==> cities == []
    ensures download.Fetched? ==>
      cities == Sort(Kept(download.lines), StrOrder)
      && SortedBy(cities, StrOrder)
      && multiset(cities) == multiset(Kept(download.lines))
      && |cities| <= |download.lines|
  {
    if download.Failed? {
      return [];
    }
    var lines := download.lines;
    var found: seq<string> := [];
    for i := 0 to |lines|
      invariant found == Kept(lines[..i])
    {
      assert lines[..i + 1][..i] == lines[..i];
      var line := lines[i];
      if Strip(line) == [] {
        continue;
      }
      var parts := Split(line, '\t');
      if |parts| >= MinFields {
        var name := parts[1];
        var countryCode := parts[8];
        var population := ParseInt(parts[14]);
        if population.None? {
          continue;
        }
        if population.value > MinPopulation {
          found := found + [name + ", " + countryCode];
        }
      }
    }
    assert lines[..|lines|] == lines;
    StrOrderIsTotalOrder();
    SortSorted(found, StrOrder);
    cities := Sort(found, StrOrder);
  }

  /** A record given by its fields is kept exactly when its population field reads as an
      integer above 100000, and then as "name, CC". */
  lemma RecordEntry(fields: seq<string>)
    requires |fields| >= MinFields
    requires forall i :: 0 <= i < |fields| ==> '\t' !in fields[i]
    requires Strip(JoinWith(fields, '\t')) != []
    ensures var p := ParseInt(fields[14]);
      CityEntry(JoinWith(fields, '\t')) ==
        if p.Some? && p.value > MinPopulation then Some(fields[1] + ", " + fields[8]) else None
  {
    SplitJoin(fields, '\t');
  }

  /** Blank lines and lines with fewer than 15 fields give no entry. */
  lemma ShortOrBlankSkipped(line: string)
    requires Strip(line) == [] || |Split(line, '\t')| < MinFields
    ensures CityEntry(line) == None
  {
  }

  /** A population of exactly 100000 is not enough; one more is. */
  lemma PopulationThreshold(fields: seq<string>)
    requires |fields| >= MinFields
    requires forall i :: 0 <= i < |fields| ==> '\t' !in fields[i]
    requires Strip(JoinWith(fields, '\t')) != []
    ensures fields[14] == IntToString(100000) ==> CityEntry(JoinWith(fields, '\t')) == None
    ensures fields[14] == IntToString(100001) ==> CityEntry(JoinWith(fields, '\t')).Some?
  {
    RecordEntry(fields);
    ParseIntOfIntToString(100000);
    ParseIntOfIntToString(100001);
  }

  /** Every entry the list holds comes from a line of the dump. */
  lemma {:induction false} KeptFromLines(lines: seq<string>)
    ensures forall e :: e in Kept(lines) ==> exists l :: l in lines && CityEntry(l) == Some(e)
  {
    if lines != [] {
      var init := lines[..|lines| - 1];
      KeptFromLines(init);
      forall e | e in Kept(lines) ensures exists l :: l in lines && CityEntry(l) == Some(e) {
        if e in Kept(init) {
          var l :| l in init && CityEntry(l) == Some(e);
          assert l in lines;
        } else {
          assert CityEntry(lines[|lines| - 1]) == Some(e);
        }
      }
    }
  }

  /** The text of cities.txt as `main` writes it: each city followed by "\n". */
  function CitiesFile(cities: seq<string>): string {
    if cities == [] then []
    else CitiesFile(cities[..|cities| - 1]) + cities[|cities| - 1] + "\n"
  }

  lemma {:induction false} CitiesFileCons(c: string, rest: seq<string>)
    ensures CitiesFile([c] + rest) == c + "\n" + CitiesFile(rest)
    decreases |rest|
  {
    if rest != [] {
      var init := rest[..|rest| - 1];
      CitiesFileCons(c, init);
      assert ([c] + rest)[..|[c] + rest| - 1] == [c] + init;
    }
  }

  /** `main`: nothing is written when no city was fetched or cities.txt cannot be opened;
      otherwise the file is rewritten with one line per city, in order. Returns the new
      content of cities.txt, or None when it is left as it was. */
  method GenerateCityList(download: Download, openFails: bool) returns (written: Option<string>)
    ensures var cities := if download.Failed? then [] else Sort(Kept(download.lines), StrOrder);
      written == if cities == [] || openFails then None else Some(CitiesFile(cities))
  {
    var cities := FetchCities(download);
    if cities == [] {
      return None;
    }
    if openFails {
      return None;
    }
    var content := WriteCities(cities);
    written := Some(content);
  }

  /** The `f.write(city + "\n")` loop of `main`: the text written to cities.txt. */
  method WriteCities(cities: seq<string>) returns (content: string)
    ensures content == CitiesFile(cities)
  {
    content := "";
    for i := 0 to |cities|
      invariant content == CitiesFile(cities[..i])
    {
      assert cities[..i + 1][..i] == cities[..i];
      content := content + cities[i] + "\n";
    }
    assert cities[..|cities|] == cities;
  }

  lemma StrOrderIsAntisymmetric()
    ensures Antisymmetric(StrOrder)
  {
    forall a, b | StrOrder(a, b) && StrOrder(b, a) ensures a == b {
      StrLeAntisymmetric(a, b);
    }
  }

  /** Any sorting procedure gives the list `cities.sort()` gives: two lists of the same
      entries both sorted by the string order are equal. */
  lemma SortedCitiesUnique(cities: seq<string>, other: seq<string>)
    requires SortedBy(cities, StrOrder) && SortedBy(other, StrOrder)
    requires multiset(cities) == multiset(other)
    ensures cities == other
  {
    StrOrderIsTotalOrder();
    StrOrderIsAntisymmetric();
    SortedUnique(cities, other, StrOrder);
  }

  /** The list written by the tool is the list the bot loads: reading cities.txt back line
      by line and stripping each line gives the cities again, when no city holds a line
      break or surrounding whitespace. */
  lemma {:induction false} WrittenListIsLoaded(cities: seq<string>)
    requires forall i :: 0 <= i < |cities| ==> '\n' !in cities[i] && Strip(cities[i]) == cities[i]
    ensures Inline.LoadCities(Some(CitiesFile(cities))) == cities
  {
    ReadBackLines(cities);
    var loaded := Inline.LoadCities(Some(CitiesFile(cities)));
    forall i | 0 <= i < |cities| ensures loaded[i] == cities[i] {
      StripLineBreak(cities[i]);
    }
  }

  lemma {:induction false} ReadBackLines(cities: seq<string>)
    requires forall i :: 0 <= i < |cities| ==> '\n' !in cities[i]
    ensures |ReadLines(CitiesFile(cities))| == |cities|
    ensures forall i :: 0 <= i < |cities| ==> ReadLines(CitiesFile(cities))[i] == cities[i] + "\n"
    decreases |cities|
  {
    if cities != [] {
      var rest := cities[1..];
      assert cities == [cities[0]] + rest;
      CitiesFileCons(cities[0], rest);
      ReadLinesCons(cities[0], CitiesFile(rest));
      ReadBackLines(rest);
      var all := ReadLines(CitiesFile(cities));
      var tail := ReadLines(CitiesFile(rest));
      assert all == [cities[0] + "\n"] + tail;
      forall i | 0 < i < |cities| ensures all[i] == cities[i] + "\n" {
        assert all[i] == tail[i - 1];
        assert rest[i - 1] == cities[i];
      }
    }
  }
}
