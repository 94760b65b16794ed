/**
 * Inline weather queries, handlers/inline.py: the city list read at start-up and the
 * choice of results for one inline query. The weather lookup `get_weather` is a function
 * parameter; its rendered report and description summary are taken as given.
 */
module Inline {
  import opened Wrappers
  import opened Text
  import opened Lines

  /** `CITIES`: every line of cities.txt, stripped; no file gives no cities. A blank line
      stays in the list as an empty name. */
  function LoadCities(file: Option<string>): (cities: seq<string>)
    ensures file.None? ==> cities == []
    ensures file.Some? ==> |cities| == |ReadLines(file.value)|
    ensures file.Some? ==> forall i :: 0 <= i < |cities| ==> cities[i] == Strip(ReadLines(file.value)[i])
  {
    match file
    case None => []
    case Some(content) =>
      var lines := ReadLines(content);
      seq(|lines|, i requires 0 <= i < |lines| => Strip(lines[i]))
  }

  /** cities.txt read from its text: the first line, stripped of its "\n" and any other
      surrounding whitespace, is the first city, and the rest of the file gives the rest. */
  lemma LoadCitiesCons(line: string, rest: string)
    requires '\n' !in line
    ensures LoadCities(Some(line + "\n" + rest)) == [Strip(line)] + LoadCities(Some(rest))
  {
    ReadLinesCons(line, rest);
    StripLineEnd(line);
    var all := LoadCities(Some(line + "\n" + rest));
    var tail := LoadCities(Some(rest));
    assert |all| == 1 + |tail|;
    forall i | 0 <= i < |all| ensures all[i] == ([Strip(line)] + tail)[i] {
      if i > 0 {
        assert ReadLines(line + "\n" + rest)[i] == ReadLines(rest)[i - 1];
      }
    }
  }

  /** A last line without "\n" is one more city, stripped; an empty file gives none. */
  lemma LoadCitiesLastLine(line: string)
    requires '\n' !in line
    ensures LoadCities(Some(line)) == if line == [] then [] else [Strip(line)]
  {
  }

  datatype Location = Location(latitude: real, longitude: real)

  /** A call of `get_weather`: by coordinates, or by city name. */
  datatype Lookup = ByCoords(lat: real, lon: real) | ByCity(name: string)

  /** A successful lookup: the `name` field if the reply has one, the report rendered by
      `format_weather_message`, and the "{temp}°C, {condition}" summary. An empty or failed
      reply is None. */
  datatype Weather = Weather(name: Option<string>, report: string, summary: string)

  /** One inline result, by the branch of the handler that produces it. */
  datatype Article =
    | Instruction
    | LocationArticle(weather: Weather)
    | CityArticle(city: string, weather: Weather)
    | ExactArticle(query: string, weather: Weather)
    | NotFound(query: string)

  /** The call `inline_query.answer(results, cache_time)`. */
  datatype InlineAnswer = InlineAnswer(results: seq<Article>, cacheTime: nat)

  /** Autocompletion stops at this many cities. */
  const MaxSuggestions: nat := 5

  /** The `InlineQueryResultArticle` a result is sent as, without its random id: title,
      description, message text and whether the text is sent with HTML parse mode. */
  datatype Rendered = Rendered(title: string, description: Option<string>, messageText: string, html: bool)

  function Render(a: Article): Rendered {
    match a
    case Instruction =>
      Rendered("Enter a city name for weather", None,
        "Please type a city name after the bot's username or use the location button.", false)
    case LocationArticle(w) => Rendered("Weather at " + w.name.GetOr("Your Location"), Some(w.summary), w.report, true)
    case CityArticle(city, w) => Rendered(city, Some(w.summary), w.report, true)
    case ExactArticle(query, w) => Rendered("Weather in " + w.name.GetOr(query), None, w.report, true)
    case NotFound(query) =>
      Rendered("City not found: '" + query + "'", None,
        "Sorry, I couldn't find the weather for '" + query + "'.", false)
  }

  /** Weather results carry the HTML report; only the instruction and "not found" are plain
      text. A city result is titled with the city and described by the summary. */
  lemma RenderedResults(a: Article)
    ensures Render(a).html <==> !(a.Instruction? || a.NotFound?)
    ensures a.CityArticle? ==> Render(a) == Rendered(a.city, Some(a.weather.summary), a.weather.report, true)
  {
    match a
    case Instruction =>
    case LocationArticle(_) =>
    case CityArticle(_, _) =>
    case ExactArticle(_, _) =>
    case NotFound(_) =>
  }

  /** A city is suggested for a query when its lowercase form starts with the lowercase query. */
  predicate Suggests(city: string, query: string) {
    StartsWith(Lower(city), Lower(query))
  }

  /** The cities that suggest themselves for `query`, in list order. */
  function Matches(cities: seq<string>, query: string): (r: seq<string>)
    ensures |r| <= |cities|
  {
    if cities == [] then []
    else (if Suggests(cities[0], query) then [cities[0]] else []) + Matches(cities[1..], query)
  }

  /** A city is a match exactly when it is in the list and suggests itself for the query. */
  lemma {:induction false} MatchesMembership(cities: seq<string>, query: string, c: string)
    ensures c in Matches(cities, query) <==> c in cities && Suggests(c, query)
  {
    if cities != [] {
      MatchesMembership(cities[1..], query, c);
      assert cities == [cities[0]] + cities[1..];
    }
  }

  /** Matching keeps list order: the matches of a concatenation are the matches of its parts,
      one after the other. */
  lemma {:induction false} MatchesAppend(a: seq<string>, b: seq<string>, query: string)
    ensures Matches(a + b, query) == Matches(a, query) + Matches(b, query)
  {
    if a == [] {
      assert a + b == b;
    } else {
      var head := if Suggests(a[0], query) then [a[0]] else [];
      MatchesAppend(a[1..], b, query);
      assert (a + b)[0] == a[0];
      assert (a + b)[1..] == a[1..] + b;
      assert Matches(a + b, query) == head + Matches(a[1..] + b, query);
      assert Matches(a, query) == head + Matches(a[1..], query);
    }
  }

  /** `matching_cities`: the first at most five suggestions. */
  function MatchingCities(cities: seq<string>, query: string): (r: seq<string>)
    ensures |r| <= MaxSuggestions
    ensures r <= Matches(cities, query)
    ensures |Matches(cities, query)| <= MaxSuggestions ==> r == Matches(cities, query)
    ensures |r| == if |Matches(cities, query)| < MaxSuggestions then |Matches(cities, query)| else MaxSuggestions
  {
    var all := Matches(cities, query);
    if |all| <= MaxSuggestions then all else all[..MaxSuggestions]
  }

  /** Suggestions are cities of the list that match the query, and when fewer than five
      match, every matching city of the list is suggested. */
  lemma MatchingCitiesAreSuggestions(cities: seq<string>, query: string)
    ensures forall c :: c in MatchingCities(cities, query) ==> c in cities && Suggests(c, query)
    ensures |MatchingCities(cities, query)| < MaxSuggestions ==>
      forall c :: c in cities && Suggests(c, query) ==> c in MatchingCities(cities, query)
  {
    var all := Matches(cities, query);
    forall c | c in MatchingCities(cities, query) ensures c in cities && Suggests(c, query) {
      var i :| 0 <= i < |MatchingCities(cities, query)| && MatchingCities(cities, query)[i] == c;
      assert all[i] == c;
      MatchesMembership(cities, query, c);
    }
    if |MatchingCities(cities, query)| < MaxSuggestions {
      forall c | c in cities && Suggests(c, query) ensures c in MatchingCities(cities, query) {
        MatchesMembership(cities, query, c);
      }
    }
  }

  /** Every city matches the empty query, so it suggests the first five cities of the list. */
  lemma EmptyQuerySuggestsAll(cities: seq<string>)
    ensures Matches(cities, "") == cities
    ensures MatchingCities(cities, "") == cities[..if |cities| < MaxSuggestions then |cities| else MaxSuggestions]
  {
    EveryCityMatchesEmpty(cities);
  }

  lemma {:induction false} EveryCityMatchesEmpty(cities: seq<string>)
    ensures Matches(cities, "") == cities
  {
    if cities != [] {
      assert Lower("") == "";
      assert Suggests(cities[0], "");
      EveryCityMatchesEmpty(cities[1..]);
      assert cities == [cities[0]] + cities[1..];
    }
  }

  /** One article per suggested city whose lookup succeeded, in suggestion order. */
  function CityArticles(matches: seq<string>, getWeather: Lookup -> Option<Weather>): (r: seq<Article>)
    ensures |r| <= |matches|
  {
    if matches == [] then []
    else
      var init := CityArticles(matches[..|matches| - 1], getWeather);
      var city := matches[|matches| - 1];
      var w := getWeather(ByCity(city));
      init + (if w.Some? then [CityArticle(city, w.value)] else [])
  }

  /** Every city result is the article of a suggested city whose lookup succeeded. */
  lemma {:induction false} CityArticleOrigin(matches: seq<string>, getWeather: Lookup -> Option<Weather>, a: Article)
    requires a in CityArticles(matches, getWeather)
    ensures exists c :: c in matches && getWeather(ByCity(c)).Some? && a == CityArticle(c, getWeather(ByCity(c)).value)
  {
    var init := matches[..|matches| - 1];
    if a in CityArticles(init, getWeather) {
      CityArticleOrigin(init, getWeather, a);
      var c :| c in init && getWeather(ByCity(c)).Some? && a == CityArticle(c, getWeather(ByCity(c)).value);
      assert c in matches;
    } else {
      assert matches[|matches| - 1] in matches;
    }
  }

  /** The lookups by city name that autocompletion makes, one per suggestion, in order. */
  function CityLookups(matches: seq<string>): (r: seq<Lookup>)
    ensures |r| == |matches| && forall i :: 0 <= i < |r| ==> r[i] == ByCity(matches[i])
  {
    seq(|matches|, i requires 0 <= i < |matches| => ByCity(matches[i]))
  }

  /** The autocompletion fan-out: one lookup per suggested city, in order, and an article
      for each one that succeeded. */
  method LookupCities(matches: seq<string>, getWeather: Lookup -> Option<Weather>)
    returns (articles: seq<Article>, lookups: seq<Lookup>)
    ensures articles == CityArticles(matches, getWeather)
    ensures lookups == CityLookups(matches)
  {
    lookups := CityLookups(matches);
    articles := [];
    var i := 0;
    while i < |matches|
      invariant 0 <= i <= |matches|
      invariant articles == CityArticles(matches[..i], getWeather)
    {
      var data := getWeather(lookups[i]);
      assert matches[..i + 1][..i] == matches[..i];
      if data.Some? {
        articles := articles + [CityArticle(matches[i], data.value)];
      }
      i := i + 1;
    }
    assert matches[..i] == matches;
  }

  /** What one inline query does: its answer and the lookups made, in order. */
  datatype Handled = Handled(answer: InlineAnswer, lookups: seq<Lookup>)

  /** The lookup made for a shared location. */
  function LocationLookup(location: Location): Lookup {
    ByCoords(location.latitude, location.longitude)
  }

  /** The results found by name: the city articles when some city is suggested, and
      otherwise the article of the exact-query lookup if it succeeded. */
  function FoundByName(q: string, cities: seq<string>, getWeather: Lookup -> Option<Weather>): seq<Article> {
    var matches := MatchingCities(cities, q);
    if matches != [] then CityArticles(matches, getWeather)
    else if getWeather(ByCity(q)).Some? then [ExactArticle(q, getWeather(ByCity(q)).value)]
    else []
  }

  /** The lookups by name: one per suggestion, or else one for the query itself. */
  function NameLookupsFor(q: string, cities: seq<string>): seq<Lookup> {
    var matches := MatchingCities(cities, q);
    if matches != [] then CityLookups(matches) else [ByCity(q)]
  }

  /** The lookups the location step makes: one by coordinates when a location is shared. */
  function LocatedLookups(location: Option<Location>): seq<Lookup> {
    if location.Some? then [LocationLookup(location.value)] else []
  }

  /** The result of the location step: the location article when its lookup succeeded. */
  function LocationResults(location: Option<Location>, getWeather: Lookup -> Option<Weather>): seq<Article> {
    if location.Some? && getWeather(LocationLookup(location.value)).Some?
    then [LocationArticle(getWeather(LocationLookup(location.value)).value)]
    else []
  }

  /** The answer after the search by name, with "not found" when there is no result at all. */
  function Finish(q: string, location: Option<Location>, cities: seq<string>,
                  getWeather: Lookup -> Option<Weather>): Handled
  {
    var results := LocationResults(location, getWeather) + FoundByName(q, cities, getWeather);
    Handled(InlineAnswer(if results == [] then [NotFound(q)] else results, 60),
            LocatedLookups(location) + NameLookupsFor(q, cities))
  }

  /** The outcome of `inline_weather_handler` for a raw query text and an optional location. */
  function Respond(rawQuery: string, location: Option<Location>, cities: seq<string>,
                   getWeather: Lookup -> Option<Weather>): Handled
  {
    var q := Strip(rawQuery);
    if q == [] && location.None? then Handled(InlineAnswer([Instruction], 300), [])
    else if LocationResults(location, getWeather) != [] && q == [] then
      Handled(InlineAnswer(LocationResults(location, getWeather), 60), LocatedLookups(location))
    else Finish(q, location, cities, getWeather)
  }

  /** The location step: look the shared location up, and keep its article if it was found. */
  method LocateStep(location: Option<Location>, getWeather: Lookup -> Option<Weather>)
    returns (results: seq<Article>, lookups: seq<Lookup>)
    ensures results == LocationResults(location, getWeather)
    ensures lookups == LocatedLookups(location)
  {
    results := [];
    lookups := [];
    if location.Some? {
      var at := LocationLookup(location.value);
      var data := getWeather(at);
      lookups := lookups + [at];
      if data.Some? {
        results := results + [LocationArticle(data.value)];
      }
    }
  }

  /** The search by name that follows the location step. */
  method SearchByName(query: string, cities: seq<string>, getWeather: Lookup -> Option<Weather>)
    returns (found: seq<Article>, named: seq<Lookup>)
    ensures found == FoundByName(query, cities, getWeather)
    ensures named == NameLookupsFor(query, cities)
  {
    var matchingCities := MatchingCities(cities, query);
    if matchingCities != [] {
      found, named := LookupCities(matchingCities, getWeather);
    } else {
      var data := getWeather(ByCity(query));
      named := [ByCity(query)];
      found := [];
      if data.Some? {
        found := found + [ExactArticle(query, data.value)];
      }
    }
  }

  /** `inline_weather_handler`: builds the result list step by step, with its early answers. */
  method InlineWeather(rawQuery: string, location: Option<Location>, cities: seq<string>,
                       getWeather: Lookup -> Option<Weather>)
    returns (answer: InlineAnswer, lookups: seq<Lookup>)
    ensures Handled(answer, lookups) == Respond(rawQuery, location, cities, getWeather)
  {
    var query := Strip(rawQuery);
    if query == [] && location.None? {
      answer := InlineAnswer([Instruction], 300);
      lookups := [];
      return;
    }
    var results;
    results, lookups := LocateStep(location, getWeather);
    if results != [] && query == [] {
      answer := InlineAnswer(results, 60);
      return;
    }
    assert Respond(rawQuery, location, cities, getWeather) == Finish(query, location, cities, getWeather);
    var found, named := SearchByName(query, cities, getWeather);
    lookups := lookups + named;
    results := results + found;
    if results == [] {
      results := [NotFound(query)];
    }
    answer := InlineAnswer(results, 60);
    assert Handled(answer, lookups) == Finish(query, location, cities, getWeather);
  }

  /** The city results follow the suggestions: every suggestion with a successful lookup
      yields its article, and they keep the suggestion order. */
  lemma {:induction false} CityArticlesAppend(a: seq<string>, b: seq<string>, getWeather: Lookup -> Option<Weather>)
    ensures CityArticles(a + b, getWeather) == CityArticles(a, getWeather) + CityArticles(b, getWeather)
    decreases |b|
  {
    if b == [] {
      assert a + b == a;
    } else {
      var b' := b[..|b| - 1];
      var ab := a + b;
      var city := b[|b| - 1];
      var w := getWeather(ByCity(city));
      var last := if w.Some? then [CityArticle(city, w.value)] else [];
      CityArticlesAppend(a, b', getWeather);
      assert ab[..|ab| - 1] == a + b';
      assert ab[|ab| - 1] == city;
      assert CityArticles(ab, getWeather) == CityArticles(a + b', getWeather) + last;
      assert CityArticles(b, getWeather) == CityArticles(b', getWeather) + last;
    }
  }

  /** When every lookup succeeds, the city results are exactly one article per suggestion,
      in suggestion order. */
  lemma {:induction false} AllLookupsSucceed(matches: seq<string>, getWeather: Lookup -> Option<Weather>)
    requires forall c :: c in matches ==> getWeather(ByCity(c)).Some?
    ensures |CityArticles(matches, getWeather)| == |matches|
    ensures forall i :: 0 <= i < |matches| ==>
      CityArticles(matches, getWeather)[i] == CityArticle(matches[i], getWeather(ByCity(matches[i])).value)
  {
    if matches != [] {
      var init := matches[..|matches| - 1];
      assert forall c :: c in init ==> c in matches;
      AllLookupsSucceed(init, getWeather);
    }
  }

  /** The answer is never empty. */
  lemma AnswerNeverEmpty(rawQuery: string, location: Option<Location>, cities: seq<string>,
                         getWeather: Lookup -> Option<Weather>)
    ensures |Respond(rawQuery, location, cities, getWeather).answer.results| >= 1
  {
  }

  /** An empty query without a location gets only the instruction, cached for 300 seconds,
      and no lookup is made; every other answer is cached for 60 seconds. */
  lemma InstructionWithoutQueryOrLocation(rawQuery: string, location: Option<Location>, cities: seq<string>,
                                         getWeather: Lookup -> Option<Weather>)
    ensures var h := Respond(rawQuery, location, cities, getWeather);
      if Strip(rawQuery) == [] && location.None?
      then h.answer == InlineAnswer([Instruction], 300) && h.lookups == []
      else h.answer.cacheTime == 60 && Instruction !in h.answer.results
  {
    var q := Strip(rawQuery);
    var h := Respond(rawQuery, location, cities, getWeather);
    var here := LocationResults(location, getWeather);
    if q == [] && location.None? {
    } else if here != [] && q == [] {
      assert h.answer == InlineAnswer(here, 60);
    } else {
      assert h == Finish(q, location, cities, getWeather);
      FinishHasNoInstruction(q, location, cities, getWeather);
    }
  }

  /** The answer after the search by name is cached for 60 seconds and holds no instruction. */
  lemma FinishHasNoInstruction(q: string, location: Option<Location>, cities: seq<string>,
                               getWeather: Lookup -> Option<Weather>)
    ensures Finish(q, location, cities, getWeather).answer.cacheTime == 60
    ensures Instruction !in Finish(q, location, cities, getWeather).answer.results
  {
    var here := LocationResults(location, getWeather);
    var found := FoundByName(q, cities, getWeather);
    FoundHasNoInstruction(q, cities, getWeather);
    assert Instruction !in here;
    NotInAppend(Instruction, here, found);
  }

  /** The search by name finds only city articles or the exact-query article. */
  lemma FoundHasNoInstruction(q: string, cities: seq<string>, getWeather: Lookup -> Option<Weather>)
    ensures Instruction !in FoundByName(q, cities, getWeather)
  {
    var found := FoundByName(q, cities, getWeather);
    if MatchingCities(cities, q) != [] {
      forall a | a in found ensures a.CityArticle? {
        CityArticleOrigin(MatchingCities(cities, q), getWeather, a);
      }
    }
  }

  lemma NotInAppend<T>(x: T, a: seq<T>, b: seq<T>)
    requires x !in a && x !in b
    ensures x !in a + b
  {
  }

  /** A shared location is looked up before anything else, and when that succeeds its
      result comes first; with an empty query it is then the only result and the only lookup. */
  lemma LocationFirst(rawQuery: string, location: Location, cities: seq<string>,
                      getWeather: Lookup -> Option<Weather>)
    ensures var h := Respond(rawQuery, Some(location), cities, getWeather);
      h.lookups != [] && h.lookups[0] == LocationLookup(location)
      && (getWeather(LocationLookup(location)).Some? ==>
            h.answer.results[0] == LocationArticle(getWeather(LocationLookup(location)).value))
      && (getWeather(LocationLookup(location)).Some? && Strip(rawQuery) == [] ==>
            h.answer.results == [LocationArticle(getWeather(LocationLookup(location)).value)]
            && h.lookups == [LocationLookup(location)])
  {
  }

  /** With a non-empty query and some suggestions, each suggestion is looked up once, in
      order, and no lookup by the query itself is made; with no suggestion exactly one lookup
      by the query is made. */
  lemma NameLookups(rawQuery: string, location: Option<Location>, cities: seq<string>,
                    getWeather: Lookup -> Option<Weather>)
    requires Strip(rawQuery) != []
    ensures var h := Respond(rawQuery, location, cities, getWeather);
      var matches := MatchingCities(cities, Strip(rawQuery));
      var named := if location.Some? then h.lookups[1..] else h.lookups;
      |h.lookups| >= 1
      && (matches != [] ==> named == CityLookups(matches))
      && (matches == [] ==> named == [ByCity(Strip(rawQuery))])
  {
  }

  /** With suggestions, the results after the location result are the city articles in
      suggestion order, and "not found" is shown only when no lookup at all succeeded. */
  lemma CityResults(rawQuery: string, location: Option<Location>, cities: seq<string>,
                    getWeather: Lookup -> Option<Weather>)
    requires Strip(rawQuery) != []
    requires MatchingCities(cities, Strip(rawQuery)) != []
    ensures var h := Respond(rawQuery, location, cities, getWeather);
      var here := if location.Some? then getWeather(LocationLookup(location.value)) else None;
      var locResult := if here.Some? then [LocationArticle(here.value)] else [];
      var cityResults := CityArticles(MatchingCities(cities, Strip(rawQuery)), getWeather);
      h.answer.results == (if locResult + cityResults == [] then [NotFound(Strip(rawQuery))]
                           else locResult + cityResults)
  {
  }
}
