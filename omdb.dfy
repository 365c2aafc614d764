/** The OMDb lookup policy (`query_omdb`, its inner `fuzzy_search`, and
    `get_suggested_name`). The HTTP endpoint is the oracle `fetch` from a
    query to its response, and `difflib.SequenceMatcher(...).ratio()` is the
    oracle `ratio`; scores are reals. An API key or year that Python would
    treat as false (absent or empty) is the empty string here. */
module Omdb {
  import opened Text

  /** A decoded JSON object with string fields, as OMDb sends them. */
  type Record = map<string, string>

  /** The three requests the lookup sends to the OMDb endpoint: by title
      (`t`, and `y` unless `year` is ""), a search (`s`), and by id (`i`). */
  datatype Query =
    | TitleLookup(title: string, year: string, apiKey: string)
    | Search(search: string, apiKey: string)
    | IdLookup(imdbId: string, apiKey: string)

  /** An HTTP response: its status code, the fields of its JSON body, and the
      body's `Search` list when it has one. */
  datatype Response = Response(status: int, data: Record, search: Option<seq<Record>>)

  /** `d.get(key, "")`. */
  function Get(d: Record, key: string): string
  {
    if key in d then d[key] else ""
  }

  /** `status_code == 200 and data.get("Response") == "True"`. */
  predicate Found(r: Response)
  {
    r.status == 200 && Get(r.data, "Response") == "True"
  }

  // ---------------------------------------------------------------------
  // Suggested name

  /** `get_suggested_name(omdb_data)`. */
  function SuggestedName(data: Option<Record>): (name: Option<string>)
    ensures name.Some? <==>
      data.Some? && Get(data.value, "Title") != "" && Get(data.value, "Year") != ""
    ensures name.Some? ==> name.value == data.value["Title"] + " (" + data.value["Year"] + ")"
  {
    if data.None? || data.value == map[] then None
    else
      var title := Get(data.value, "Title");
      var year := Get(data.value, "Year");
      if title != "" && year != "" then Some(title + " (" + year + ")") else None
  }

  /** Reads a `Title (Year)` name back into its title and year. */
  function ParseSuggestedName(name: string): Option<(string, string)>
  {
    var open := LastIndex(name, '(');
    if 1 <= open && name[open - 1] == ' ' && name[|name| - 1] == ')' && open < |name| - 1
    then Some((name[..open - 1], name[open + 1..|name| - 1]))
    else None
  }

  /** The suggested name keeps title and year apart: reading it back gives
      them again whenever the year has no `(` in it. */
  lemma SuggestedNameRoundTrip(data: Record)
    requires Get(data, "Title") != "" && Get(data, "Year") != ""
    requires '(' !in Get(data, "Year")
    ensures ParseSuggestedName(SuggestedName(Some(data)).value)
      == Some((data["Title"], data["Year"]))
  {
    var title, year := data["Title"], data["Year"];
    var name := SuggestedName(Some(data)).value;
    var open := |title| + 1;
    assert name[open] == '(' && name[open - 1] == ' ';
    assert forall i :: open < i < |name| - 1 ==> name[i] == year[i - open - 1];
    assert forall i :: open < i < |name| ==> name[i] != '(';
    assert LastIndex(name, '(') == open;
    assert name[..open - 1] == title;
    assert name[open + 1..|name| - 1] == year;
  }

  lemma SuggestedNameExamples()
    ensures SuggestedName(Some(map["Title" := "Waterworld", "Year" := "1995"])) == Some("Waterworld (1995)")
    ensures SuggestedName(Some(map["Title" := "Movie"])) == None
    ensures SuggestedName(Some(map["Year" := "2020"])) == None
    ensures SuggestedName(Some(map[])) == None
    ensures SuggestedName(None) == None
  {
    assert "Waterworld" + " (" + "1995" + ")" == "Waterworld (1995)";
  }

  // ---------------------------------------------------------------------
  // Scoring and best-candidate selection

  const YearBonus: real := 0.2
  const ThresholdWithYear: real := 0.8
  const ThresholdWithoutYear: real := 0.9

  /** The score of a candidate with similarity `ratio` and year
      `candidateYear` against the intended year. */
  function Score(ratio: real, candidateYear: string, intendedYear: string): real
  {
    if intendedYear != "" then
      if candidateYear == intendedYear then ratio + YearBonus else ratio - YearBonus
    else ratio
  }

  function Threshold(intendedYear: string): real
  {
    if intendedYear != "" then ThresholdWithYear else ThresholdWithoutYear
  }

  /** A year lowers the bar for a candidate from that year, and a candidate
      from another year needs a perfect title match at least. The statements
      stay clear of the exact boundaries, where the source compares binary
      floating-point values. */
  lemma AcceptanceByYear(ratio: real, candidateYear: string, intendedYear: string)
    ensures intendedYear == "" ==>
      (Score(ratio, candidateYear, intendedYear) >= Threshold(intendedYear) <==> ratio >= 0.9)
    ensures intendedYear != "" && candidateYear == intendedYear && ratio > 0.6 ==>
      Score(ratio, candidateYear, intendedYear) >= Threshold(intendedYear)
    ensures intendedYear != "" && candidateYear == intendedYear && ratio < 0.6 ==>
      Score(ratio, candidateYear, intendedYear) < Threshold(intendedYear)
    ensures intendedYear != "" && candidateYear != intendedYear && ratio < 1.0 ==>
      Score(ratio, candidateYear, intendedYear) < Threshold(intendedYear)
  {
  }

  /** The score of search result `item` for the intended title and year. */
  function CandidateScore(item: Record, intendedTitle: string, intendedYear: string,
                          ratio: (string, string) -> real): real
  {
    Score(ratio(Lower(Get(item, "Title")), Lower(intendedTitle)), Get(item, "Year"), intendedYear)
  }

  function Scores(items: seq<Record>, intendedTitle: string, intendedYear: string,
                  ratio: (string, string) -> real): (s: seq<real>)
    ensures |s| == |items|
    ensures forall k :: 0 <= k < |items| ==> s[k] == CandidateScore(items[k], intendedTitle, intendedYear, ratio)
  {
    seq(|items|, k requires 0 <= k < |items| => CandidateScore(items[k], intendedTitle, intendedYear, ratio))
  }

  /** The index and score a scan keeping `best_match`/`best_score` ends with:
      a candidate replaces the best so far only when its score is strictly
      greater, starting from score 0. */
  function BestCandidate(scores: seq<real>): (best: (Option<nat>, real))
    ensures best.0.Some? ==> best.0.value < |scores|
  {
    if scores == [] then (None, 0.0)
    else
      var prev := BestCandidate(scores[..|scores| - 1]);
      var last := scores[|scores| - 1];
      if last > prev.1 then (Some(|scores| - 1), last) else prev
  }

  /** The selection picks the first candidate with the strictly greatest
      score, and none at all when no score is above 0. */
  lemma {:induction false} BestCandidateIsFirstMaximum(scores: seq<real>)
    ensures var (best, top) := BestCandidate(scores);
      && (best.None? ==> top == 0.0 && forall k :: 0 <= k < |scores| ==> scores[k] <= 0.0)
      && (best.Some? ==>
            && best.value < |scores|
            && top == scores[best.value] > 0.0
            && (forall k :: 0 <= k < |scores| ==> scores[k] <= top)
            && (forall k :: 0 <= k < best.value ==> scores[k] < top))
  {
    if scores != [] {
      var init := scores[..|scores| - 1];
      BestCandidateIsFirstMaximum(init);
      assert forall k :: 0 <= k < |init| ==> init[k] == scores[k];
    }
  }

  /** The candidate loop of `fuzzy_search`. */
  method SelectBest(items: seq<Record>, intendedTitle: string, intendedYear: string,
                    ratio: (string, string) -> real)
    returns (best: Option<nat>, bestScore: real)
    ensures (best, bestScore) == BestCandidate(Scores(items, intendedTitle, intendedYear, ratio))
  {
    ghost var scores := Scores(items, intendedTitle, intendedYear, ratio);
    best, bestScore := None, 0.0;
    for i := 0 to |items|
      invariant (best, bestScore) == BestCandidate(scores[..i])
    {
      var candidateTitle := Get(items[i], "Title");
      var candidateYear := Get(items[i], "Year");
      var r := ratio(Lower(candidateTitle), Lower(intendedTitle));
      var score := Score(r, candidateYear, intendedYear);
      assert scores[..i + 1][..i] == scores[..i];
      if score > bestScore {
        best, bestScore := Some(i), score;
      }
    }
    assert scores[..|items|] == scores;
  }

  // ---------------------------------------------------------------------
  // One fuzzy search

  /** What `fuzzy_search` does with the candidates of a successful search
      `q`: look up the first best-scoring one by its `imdbID` when it clears
      the threshold. */
  function AcceptBest(apiKey: string, q: Query, items: seq<Record>, intendedTitle: string, intendedYear: string,
                      fetch: Query -> Response, ratio: (string, string) -> real)
    : (Option<Record>, seq<Query>)
  {
    var choice := BestCandidate(Scores(items, intendedTitle, intendedYear, ratio));
    var best := choice.0;
    if best.Some? && choice.1 >= Threshold(intendedYear) && Get(items[best.value], "imdbID") != "" then
      var q2 := IdLookup(Get(items[best.value], "imdbID"), apiKey);
      if Found(fetch(q2)) then (Some(fetch(q2).data), [q, q2]) else (None, [q, q2])
    else (None, [q])
  }

  /** What one `fuzzy_search(search_title, intended_title, intended_year)`
      returns, with the queries it sends in order. */
  function FuzzyOutcome(apiKey: string, searchTitle: string, intendedTitle: string, intendedYear: string,
                        fetch: Query -> Response, ratio: (string, string) -> real)
    : (Option<Record>, seq<Query>)
  {
    var q := Search(searchTitle, apiKey);
    var response := fetch(q);
    if Found(response) && response.search.Some? then
      AcceptBest(apiKey, q, response.search.value, intendedTitle, intendedYear, fetch, ratio)
    else (None, [q])
  }

  /** `fuzzy_search`. */
  method FuzzySearch(apiKey: string, searchTitle: string, intendedTitle: string, intendedYear: string,
                     fetch: Query -> Response, ratio: (string, string) -> real)
    returns (result: Option<Record>, sent: seq<Query>)
    ensures (result, sent) == FuzzyOutcome(apiKey, searchTitle, intendedTitle, intendedYear, fetch, ratio)
  {
    var q := Search(searchTitle, apiKey);
    var response := fetch(q);
    sent := [q];
    result := None;
    if Found(response) && response.search.Some? {
      var items := response.search.value;
      var best, bestScore := SelectBest(items, intendedTitle, intendedYear, ratio);
      if best.Some? && bestScore >= Threshold(intendedYear) {
        var imdbId := Get(items[best.value], "imdbID");
        if imdbId != "" {
          var q2 := IdLookup(imdbId, apiKey);
          var idResponse := fetch(q2);
          sent := [q, q2];
          if Found(idResponse) {
            result := Some(idResponse.data);
          }
        }
      }
    }
  }

  /** What a fuzzy search promises: it searches first; it returns a record
      only from an id lookup of the first best-scoring candidate, when that
      candidate clears the threshold, has an `imdbID`, and the lookup finds
      it. */
  lemma FuzzyOutcomeMeaning(apiKey: string, searchTitle: string, intendedTitle: string, intendedYear: string,
                            fetch: Query -> Response, ratio: (string, string) -> real)
    ensures var (result, sent) := FuzzyOutcome(apiKey, searchTitle, intendedTitle, intendedYear, fetch, ratio);
      && 1 <= |sent| <= 2
      && sent[0] == Search(searchTitle, apiKey)
      && (result.Some? ==>
            var response := fetch(sent[0]);
            && |sent| == 2
            && Found(response) && response.search.Some?
            && var items := response.search.value;
               exists k ::
                 && 0 <= k < |items|
                 && CandidateScore(items[k], intendedTitle, intendedYear, ratio) >= Threshold(intendedYear)
                 && (forall m :: 0 <= m < |items| ==>
                       CandidateScore(items[m], intendedTitle, intendedYear, ratio)
                         <= CandidateScore(items[k], intendedTitle, intendedYear, ratio))
                 && (forall m :: 0 <= m < k ==>
                       CandidateScore(items[m], intendedTitle, intendedYear, ratio)
                         < CandidateScore(items[k], intendedTitle, intendedYear, ratio))
                 && Get(items[k], "imdbID") != ""
                 && sent[1] == IdLookup(Get(items[k], "imdbID"), apiKey)
                 && Found(fetch(sent[1]))
                 && result.value == fetch(sent[1]).data)
  {
    var response := fetch(Search(searchTitle, apiKey));
    if Found(response) && response.search.Some? {
      var items := response.search.value;
      var scores := Scores(items, intendedTitle, intendedYear, ratio);
      BestCandidateIsFirstMaximum(scores);
      var choice := BestCandidate(scores);
      if choice.0.Some? && choice.1 >= Threshold(intendedYear) && Get(items[choice.0.value], "imdbID") != "" {
        var k := choice.0.value;
        assert CandidateScore(items[k], intendedTitle, intendedYear, ratio) == choice.1;
      }
    }
  }

  /** `k` is the first index holding the greatest score. */
  ghost predicate IsFirstBest(scores: seq<real>, k: nat)
  {
    && k < |scores|
    && (forall m :: 0 <= m < |scores| ==> scores[m] <= scores[k])
    && (forall m :: 0 <= m < k ==> scores[m] < scores[k])
  }

  /** The converse of `FuzzyOutcomeMeaning`: when the search succeeds and
      its first best-scoring candidate clears the threshold, has an
      `imdbID`, and the id lookup finds it, that lookup's record is what the
      fuzzy search returns, after exactly those two queries. */
  lemma FuzzyAcceptsFirstBest(apiKey: string, searchTitle: string, intendedTitle: string, intendedYear: string,
                              fetch: Query -> Response, ratio: (string, string) -> real, k: nat)
    requires Found(fetch(Search(searchTitle, apiKey)))
    requires fetch(Search(searchTitle, apiKey)).search.Some?
    requires IsFirstBest(Scores(fetch(Search(searchTitle, apiKey)).search.value, intendedTitle, intendedYear, ratio), k)
    requires Scores(fetch(Search(searchTitle, apiKey)).search.value, intendedTitle, intendedYear, ratio)[k]
      >= Threshold(intendedYear)
    requires Get(fetch(Search(searchTitle, apiKey)).search.value[k], "imdbID") != ""
    requires Found(fetch(IdLookup(Get(fetch(Search(searchTitle, apiKey)).search.value[k], "imdbID"), apiKey)))
    ensures var q2 := IdLookup(Get(fetch(Search(searchTitle, apiKey)).search.value[k], "imdbID"), apiKey);
      FuzzyOutcome(apiKey, searchTitle, intendedTitle, intendedYear, fetch, ratio)
        == (Some(fetch(q2).data), [Search(searchTitle, apiKey), q2])
  {
    var items := fetch(Search(searchTitle, apiKey)).search.value;
    var scores := Scores(items, intendedTitle, intendedYear, ratio);
    BestCandidateIsFirstMaximum(scores);
    var choice := BestCandidate(scores);
    assert choice.0.Some?;
    assert choice.0.value == k;
  }

  // ---------------------------------------------------------------------
  // The search-title plan

  /** End of the run of ASCII letters starting at `k`. */
  function LettersEnd(s: string, k: nat): (e: nat)
    requires k <= |s|
    ensures k <= e <= |s|
    ensures forall i :: k <= i < e ==> IsLetter(s[i])
    ensures e < |s| ==> !IsLetter(s[e])
    decreases |s| - k
  {
    if k < |s| && IsLetter(s[k]) then LettersEnd(s, k + 1) else k
  }

  /** `re.findall(r"[A-Za-z]+", s)`: the maximal runs of ASCII letters. */
  function LetterRuns(s: string): (words: seq<string>)
    ensures forall w :: w in words ==> |w| > 0
    decreases |s|
  {
    if s == [] then []
    else if !IsLetter(s[0]) then LetterRuns(s[1..])
    else
      var n := LettersEnd(s, 0);
      [s[..n]] + LetterRuns(s[n..])
  }

  /** The ASCII letters of `s`, in order. */
  function Letters(s: string): string
  {
    if s == [] then [] else (if IsLetter(s[0]) then [s[0]] else []) + Letters(s[1..])
  }

  function Concat(words: seq<string>): string
  {
    if words == [] then [] else words[0] + Concat(words[1..])
  }

  lemma {:induction false} LettersOfLetterPrefix(s: string, n: nat)
    requires n <= |s|
    requires forall i :: 0 <= i < n ==> IsLetter(s[i])
    ensures Letters(s) == s[..n] + Letters(s[n..])
  {
    if n > 0 {
      LettersOfLetterPrefix(s[1..], n - 1);
      assert s[1..][n - 1..] == s[n..];
      assert [s[0]] + s[1..][..n - 1] == s[..n];
    }
  }

  /** The words hold exactly the letters of the title, in order: nothing is
      dropped and nothing added. */
  lemma {:induction false} LetterRunsSpellLetters(s: string)
    ensures Concat(LetterRuns(s)) == Letters(s)
    decreases |s|
  {
    if s != [] {
      if !IsLetter(s[0]) {
        LetterRunsSpellLetters(s[1..]);
      } else {
        var n := LettersEnd(s, 0);
        var words := [s[..n]] + LetterRuns(s[n..]);
        assert LetterRuns(s) == words;
        assert words[0] == s[..n] && words[1..] == LetterRuns(s[n..]);
        assert Concat(words) == s[..n] + Concat(LetterRuns(s[n..]));
        LetterRunsSpellLetters(s[n..]);
        LettersOfLetterPrefix(s, n);
      }
    }
  }

  /** `w` is the slice `s[span.0..span.1]` at or after `from`: a non-empty
      run of letters that cannot be extended to the right, nor to the left
      unless it starts at `from`. */
  ghost predicate RunAt(s: string, from: nat, w: string, span: (nat, nat))
  {
    && from <= span.0 < span.1 <= |s|
    && w == s[span.0..span.1]
    && (forall k :: span.0 <= k < span.1 ==> IsLetter(s[k]))
    && (span.0 == from || !IsLetter(s[span.0 - 1]))
    && (span.1 == |s| || !IsLetter(s[span.1]))
  }

  /** `spans` places the words in `s` from position `from` on: each word is
      a maximal run of letters, the spans come in order with a gap between
      them, and every letter of `s[from..]` lies in one. */
  ghost predicate IsRunSplit(s: string, from: nat, words: seq<string>, spans: seq<(nat, nat)>)
  {
    && |spans| == |words|
    && (forall i :: 0 <= i < |spans| ==> RunAt(s, from, words[i], spans[i]))
    && (forall i, j :: 0 <= i < j < |spans| ==> spans[i].1 < spans[j].0)
    && (forall k :: from <= k < |s| && IsLetter(s[k]) ==>
          exists i :: 0 <= i < |spans| && spans[i].0 <= k < spans[i].1)
  }

  /** A non-letter in front of a split leaves it a split. */
  lemma RunSplitSkip(s: string, from: nat, words: seq<string>, spans: seq<(nat, nat)>)
    requires from < |s| && !IsLetter(s[from])
    requires IsRunSplit(s, from + 1, words, spans)
    ensures IsRunSplit(s, from, words, spans)
  {
    forall i | 0 <= i < |spans|
      ensures RunAt(s, from, words[i], spans[i])
    {
      assert RunAt(s, from + 1, words[i], spans[i]);
    }
  }

  /** A maximal run of letters in front of a split extends it by one word. */
  lemma RunSplitCons(s: string, from: nat, e: nat, words: seq<string>, spans: seq<(nat, nat)>)
    requires from < e <= |s|
    requires forall k :: from <= k < e ==> IsLetter(s[k])
    requires e == |s| || !IsLetter(s[e])
    requires IsRunSplit(s, e, words, spans)
    ensures IsRunSplit(s, from, [s[from..e]] + words, [(from, e)] + spans)
  {
    var spans' := [(from, e)] + spans;
    var words' := [s[from..e]] + words;
    forall i | 0 <= i < |spans'|
      ensures RunAt(s, from, words'[i], spans'[i])
    {
      if i > 0 {
        assert spans'[i] == spans[i - 1] && words'[i] == words[i - 1];
        assert RunAt(s, e, words[i - 1], spans[i - 1]);
        // it starts on a letter, so not at `e`
        assert IsLetter(s[spans[i - 1].0]);
      }
    }
    forall i, j | 0 <= i < j < |spans'|
      ensures spans'[i].1 < spans'[j].0
    {
      assert spans'[j] == spans[j - 1];
      assert RunAt(s, e, words[j - 1], spans[j - 1]);
      if i > 0 {
        assert spans'[i] == spans[i - 1];
      } else {
        assert IsLetter(s[spans[j - 1].0]);
      }
    }
    forall k | from <= k < |s| && IsLetter(s[k])
      ensures exists i :: 0 <= i < |spans'| && spans'[i].0 <= k < spans'[i].1
    {
      if k < e {
        assert spans'[0].0 <= k < spans'[0].1;
      } else {
        var i :| 0 <= i < |spans| && spans[i].0 <= k < spans[i].1;
        assert spans'[i + 1] == spans[i];
      }
    }
  }

  lemma {:induction false} RunSplitFrom(s: string, from: nat) returns (spans: seq<(nat, nat)>)
    requires from <= |s|
    ensures IsRunSplit(s, from, LetterRuns(s[from..]), spans)
    decreases |s| - from
  {
    if from == |s| {
      assert s[from..] == [];
      spans := [];
    } else if !IsLetter(s[from]) {
      assert s[from..][1..] == s[from + 1..];
      spans := RunSplitFrom(s, from + 1);
      RunSplitSkip(s, from, LetterRuns(s[from + 1..]), spans);
    } else {
      var t := s[from..];
      var n := LettersEnd(t, 0);
      var e := from + n;
      assert t[..n] == s[from..e] && t[n..] == s[e..];
      assert LetterRuns(t) == [s[from..e]] + LetterRuns(s[e..]);
      forall k | from <= k < e
        ensures IsLetter(s[k])
      {
        assert s[k] == t[k - from];
      }
      assert e < |s| ==> s[e] == t[n];
      var rest := RunSplitFrom(s, e);
      RunSplitCons(s, from, e, LetterRuns(s[e..]), rest);
      spans := [(from, e)] + rest;
    }
  }

  /** `re.findall(r"[A-Za-z]+", s)` finds exactly the maximal runs of
      letters, left to right: each word is a slice of the title made of
      letters with no letter right before or after it, the slices come in
      order and apart, and every letter of the title is in one. */
  lemma LetterRunsAreMaximalRuns(s: string)
    ensures exists spans :: IsRunSplit(s, 0, LetterRuns(s), spans)
  {
    var spans := RunSplitFrom(s, 0);
    assert s[0..] == s;
  }

  lemma {:induction false} NoLettersIff(s: string)
    ensures Letters(s) == [] <==> forall i :: 0 <= i < |s| ==> !IsLetter(s[i])
  {
    if s != [] {
      NoLettersIff(s[1..]);
      assert forall i :: 1 <= i < |s| ==> s[i] == s[1..][i - 1];
    }
  }

  /** A title without ASCII letters has no words. */
  lemma NoLettersNoWords(s: string)
    ensures LetterRuns(s) == [] <==> forall i :: 0 <= i < |s| ==> !IsLetter(s[i])
  {
    LetterRunsSpellLetters(s);
    NoLettersIff(s);
    var words := LetterRuns(s);
    if words != [] {
      assert words[0] in words;
      assert |Concat(words)| >= |words[0]| > 0;
    }
  }

  /** The shortened titles `" ".join(words[:i])` for `i` from `n` down to 2. */
  function PrefixTitles(words: seq<string>, n: int): seq<string>
    requires n <= |words|
    decreases n
  {
    if n <= 1 then [] else [JoinWith(" ", words[..n])] + PrefixTitles(words, n - 1)
  }

  lemma {:induction false} PrefixTitlesAt(words: seq<string>, n: int)
    requires n <= |words|
    ensures |PrefixTitles(words, n)| == if n <= 1 then 0 else n - 1
    ensures forall m :: 0 <= m < |PrefixTitles(words, n)| ==>
      PrefixTitles(words, n)[m] == JoinWith(" ", words[..n - m])
    decreases n
  {
    if n > 1 {
      PrefixTitlesAt(words, n - 1);
    }
  }

  /** The search titles `query_omdb` tries, in order. */
  function SearchPlan(title: string): seq<string>
  {
    var words := LetterRuns(title);
    if words == [] then [title]
    else
      var simplified := JoinWith(" ", words);
      [title] + (if simplified != title then [simplified] else []) + PrefixTitles(words, |words| - 1)
  }

  /** The plan starts with the full title, then the letters-only title if
      it differs; a title without letters is searched only as it is. */
  lemma SearchPlanStart(title: string)
    ensures var plan := SearchPlan(title);
      var words := LetterRuns(title);
      var simplified := JoinWith(" ", words);
      && plan[0] == title
      && (words == [] ==> plan == [title])
      && (words != [] && simplified != title ==> plan[1] == simplified)
  {
  }

  /** After those come the word prefixes (`PrefixTitlesAt` says which),
      from one word short of all down to two words; with two words or fewer
      none is tried. */
  lemma SearchPlanPrefixes(title: string)
    ensures var plan := SearchPlan(title);
      var words := LetterRuns(title);
      var skip := if words != [] && JoinWith(" ", words) != title then 2 else 1;
      && |plan| == skip + (if |words| <= 2 then 0 else |words| - 2)
      && plan[skip..] == PrefixTitles(words, |words| - 1)
  {
    var words := LetterRuns(title);
    if words != [] {
      var simplified := JoinWith(" ", words);
      var head := [title] + (if simplified != title then [simplified] else []);
      var tail := PrefixTitles(words, |words| - 1);
      assert SearchPlan(title) == head + tail;
      assert (head + tail)[|head|..] == tail;
      PrefixTitlesAt(words, |words| - 1);
    } else {
      assert SearchPlan(title) == [title];
    }
  }

  lemma NonAlphabeticTitleExample()
    ensures SearchPlan("1234567890!@#$") == ["1234567890!@#$"]
  {
    var s := "1234567890!@#$";
    assert forall i :: 0 <= i < |s| ==> s[i] < 'A';
    NoLettersNoWords(s);
  }

  /** Fuzzy searches over the plan, stopping at the first that finds a
      record; the queries of all searches made, in order. */
  function FirstHit(apiKey: string, plan: seq<string>, year: string,
                    fetch: Query -> Response, ratio: (string, string) -> real)
    : (Option<Record>, seq<Query>)
  {
    if plan == [] then (None, [])
    else
      var first := FuzzyOutcome(apiKey, plan[0], plan[0], year, fetch, ratio);
      if first.0.Some? then first
      else
        var rest := FirstHit(apiKey, plan[1..], year, fetch, ratio);
        (rest.0, first.1 + rest.1)
  }

  /** The first success wins: a hit comes from some title of the plan whose
      every predecessor found nothing, and no hit means none found anything. */
  lemma {:induction false} FirstHitMeaning(apiKey: string, plan: seq<string>, year: string,
                                           fetch: Query -> Response, ratio: (string, string) -> real)
    ensures var r := FirstHit(apiKey, plan, year, fetch, ratio).0;
      && (r.None? ==> forall m :: 0 <= m < |plan| ==>
            FuzzyOutcome(apiKey, plan[m], plan[m], year, fetch, ratio).0.None?)
      && (r.Some? ==> exists m ::
            && 0 <= m < |plan|
            && r == FuzzyOutcome(apiKey, plan[m], plan[m], year, fetch, ratio).0
            && forall m' :: 0 <= m' < m ==>
                 FuzzyOutcome(apiKey, plan[m'], plan[m'], year, fetch, ratio).0.None?)
  {
    if plan != [] {
      FirstHitMeaning(apiKey, plan[1..], year, fetch, ratio);
      var r0 := FuzzyOutcome(apiKey, plan[0], plan[0], year, fetch, ratio).0;
      var r := FirstHit(apiKey, plan, year, fetch, ratio).0;
      if r0.None? {
        assert forall m :: 1 <= m < |plan| ==> plan[m] == plan[1..][m - 1];
        if r.Some? {
          var m :| 0 <= m < |plan[1..]|
            && r == FuzzyOutcome(apiKey, plan[1..][m], plan[1..][m], year, fetch, ratio).0
            && forall m' :: 0 <= m' < m ==>
                 FuzzyOutcome(apiKey, plan[1..][m'], plan[1..][m'], year, fetch, ratio).0.None?;
          assert r == FuzzyOutcome(apiKey, plan[m + 1], plan[m + 1], year, fetch, ratio).0;
        }
      }
    }
  }

  /** What `query_omdb(title, year)` returns with key `apiKey`, with the
      queries it sends in order. */
  function QueryOutcome(apiKey: string, title: string, year: string,
                        fetch: Query -> Response, ratio: (string, string) -> real)
    : (Option<Record>, seq<Query>)
  {
    if apiKey == "" then (None, [])
    else
      var q := TitleLookup(title, year, apiKey);
      if Found(fetch(q)) then (Some(fetch(q).data), [q])
      else
        var searched := FirstHit(apiKey, SearchPlan(title), year, fetch, ratio);
        (searched.0, [q] + searched.1)
  }

  /** A search that finds nothing hands over to the rest of the plan,
      its queries coming first. */
  lemma FirstHitStep(apiKey: string, searchTitle: string, rest: seq<string>, year: string,
                     fetch: Query -> Response, ratio: (string, string) -> real, sent: seq<Query>)
    requires FuzzyOutcome(apiKey, searchTitle, searchTitle, year, fetch, ratio).0.None?
    ensures var here := FuzzyOutcome(apiKey, searchTitle, searchTitle, year, fetch, ratio).1;
      var later := FirstHit(apiKey, rest, year, fetch, ratio);
      var all := FirstHit(apiKey, [searchTitle] + rest, year, fetch, ratio);
      all.0 == later.0 && sent + all.1 == (sent + here) + later.1
  {
    assert ([searchTitle] + rest)[1..] == rest;
  }

  /** Having sent `sent`, what is still to come from the searches of
      `pending` accounts for the whole lookup `goal`. */
  ghost predicate PlanLeft(goal: (Option<Record>, seq<Query>), sent: seq<Query>, pending: seq<string>,
                           apiKey: string, year: string, fetch: Query -> Response, ratio: (string, string) -> real)
  {
    var later := FirstHit(apiKey, pending, year, fetch, ratio);
    goal == (later.0, sent + later.1)
  }

  /** One fuzzy search of the plan either ends the lookup with its record or
      leaves the rest of the plan to account for it. */
  lemma SearchAdvance(goal: (Option<Record>, seq<Query>), sent: seq<Query>, searchTitle: string, rest: seq<string>,
                      result: Option<Record>, qs: seq<Query>,
                      apiKey: string, year: string, fetch: Query -> Response, ratio: (string, string) -> real)
    requires PlanLeft(goal, sent, [searchTitle] + rest, apiKey, year, fetch, ratio)
    requires (result, qs) == FuzzyOutcome(apiKey, searchTitle, searchTitle, year, fetch, ratio)
    ensures result.Some? ==> goal == (result, sent + qs)
    ensures result.None? ==> PlanLeft(goal, sent + qs, rest, apiKey, year, fetch, ratio)
  {
    assert ([searchTitle] + rest)[0] == searchTitle;
    if result.None? {
      FirstHitStep(apiKey, searchTitle, rest, year, fetch, ratio, sent);
    }
  }

  /** The last stage of `query_omdb`: searches for the word prefixes
      `words[:i]` for `i` from `len(words) - 1` down to 2, stopping at the
      first that finds a record. */
  method SearchShorterTitles(apiKey: string, words: seq<string>, year: string,
                             fetch: Query -> Response, ratio: (string, string) -> real)
    returns (result: Option<Record>, sent: seq<Query>)
    ensures (result, sent) == FirstHit(apiKey, PrefixTitles(words, |words| - 1), year, fetch, ratio)
  {
    ghost var goal := FirstHit(apiKey, PrefixTitles(words, |words| - 1), year, fetch, ratio);
    ghost var pending := PrefixTitles(words, |words| - 1);
    sent := [];
    assert [] + goal.1 == goal.1;
    var i := |words| - 1;
    while i > 1
      invariant i <= |words| - 1
      invariant pending == PrefixTitles(words, i)
      invariant PlanLeft(goal, sent, pending, apiKey, year, fetch, ratio)
    {
      var shortTitle := JoinWith(" ", words[..i]);
      var qs;
      result, qs := FuzzySearch(apiKey, shortTitle, shortTitle, year, fetch, ratio);
      SearchAdvance(goal, sent, shortTitle, pending[1..], result, qs, apiKey, year, fetch, ratio);
      if result.Some? {
        return result, sent + qs;
      }
      sent, pending := sent + qs, pending[1..];
      i := i - 1;
    }
    assert sent + [] == sent;
    return None, sent;
  }

  /** `query_omdb`. */
  method QueryOmdb(apiKey: string, title: string, year: string,
                   fetch: Query -> Response, ratio: (string, string) -> real)
    returns (result: Option<Record>, sent: seq<Query>)
    ensures (result, sent) == QueryOutcome(apiKey, title, year, fetch, ratio)
  {
    if apiKey == "" {
      return None, [];
    }
    var q := TitleLookup(title, year, apiKey);
    var response := fetch(q);
    sent := [q];
    if Found(response) {
      return Some(response.data), sent;
    }
    ghost var goal := QueryOutcome(apiKey, title, year, fetch, ratio);
    var words := LetterRuns(title);
    var simplified := JoinWith(" ", words);
    // the searches still to make after the full title, as the plan lists them
    ghost var prefixes := if words == [] then [] else PrefixTitles(words, |words| - 1);
    ghost var afterFull := if words != [] && simplified != title then [simplified] + prefixes else prefixes;
    assert SearchPlan(title) == [title] + afterFull;
    assert PlanLeft(goal, sent, [title] + afterFull, apiKey, year, fetch, ratio);
    var qs;
    result, qs := FuzzySearch(apiKey, title, title, year, fetch, ratio);
    SearchAdvance(goal, sent, title, afterFull, result, qs, apiKey, year, fetch, ratio);
    if result.Some? {
      return result, sent + qs;
    }
    sent := sent + qs;
    if words != [] {
      if simplified != title {
        result, qs := FuzzySearch(apiKey, simplified, simplified, year, fetch, ratio);
        SearchAdvance(goal, sent, simplified, prefixes, result, qs, apiKey, year, fetch, ratio);
        if result.Some? {
          return result, sent + qs;
        }
        sent := sent + qs;
      }
      var r', qs' := SearchShorterTitles(apiKey, words, year, fetch, ratio);
      return r', sent + qs';
    }
    assert sent + [] == sent;
    return None, sent;
  }

  /** Without an API key nothing is sent and nothing found. */
  lemma NoKeyNoRequest(title: string, year: string, fetch: Query -> Response, ratio: (string, string) -> real)
    ensures QueryOutcome("", title, year, fetch, ratio) == (None, [])
  {
  }

  /** A direct title lookup that finds the film is returned as it is, and
      no search follows; otherwise the searches of the plan follow it. */
  lemma DirectLookupFirst(apiKey: string, title: string, year: string,
                          fetch: Query -> Response, ratio: (string, string) -> real)
    requires apiKey != ""
    ensures var (r, sent) := QueryOutcome(apiKey, title, year, fetch, ratio);
      && |sent| >= 1 && sent[0] == TitleLookup(title, year, apiKey)
      && (Found(fetch(sent[0])) ==> r == Some(fetch(sent[0]).data) && |sent| == 1)
      && (!Found(fetch(sent[0])) ==> |sent| >= 2 && sent[1] == Search(title, apiKey))
  {
    var q := TitleLookup(title, year, apiKey);
    if !Found(fetch(q)) {
      var plan := SearchPlan(title);
      SearchPlanStart(title);
      FuzzyOutcomeMeaning(apiKey, plan[0], plan[0], year, fetch, ratio);
    }
  }
}
