/** Movie/series classification of a video file from its name
    (`classify_video`): a file is a series episode when its basename
    contains `[Ss]\d+[Ee]\d+` anywhere. */
module Classifier {
  import opened Text
  import Paths

  predicate IsSeasonMark(c: char) { c == 'S' || c == 's' }

  predicate IsEpisodeMark(c: char) { c == 'E' || c == 'e' }

  predicate AllDigits(s: string, lo: nat, hi: nat)
    requires lo <= hi <= |s|
  {
    forall k :: lo <= k < hi ==> IsDigit(s[k])
  }

  /** The pattern `[Ss]\d+[Ee]\d+` occurs in `s` with its season mark at `i`
      and its episode mark at `j` (one trailing digit suffices: `\d+` needs
      at least one, and any further ones do not change whether it occurs). */
  ghost predicate CodeAt(s: string, i: int, j: int)
  {
    && 0 <= i && i + 1 < j && j + 1 < |s|
    && IsSeasonMark(s[i])
    && AllDigits(s, i + 1, j)
    && IsEpisodeMark(s[j])
    && IsDigit(s[j + 1])
  }

  /** `re.search(r"[Ss]\d+[Ee]\d+", s)` succeeds. */
  ghost predicate HasEpisodeCode(s: string)
  {
    exists i, j :: CodeAt(s, i, j)
  }

  /** End of the run of digits starting at `k`. */
  function DigitsEnd(s: string, k: nat): (e: nat)
    requires k <= |s|
    ensures k <= e <= |s|
    ensures AllDigits(s, k, e)
    ensures e < |s| ==> !IsDigit(s[e])
    decreases |s| - k
  {
    if k < |s| && IsDigit(s[k]) then DigitsEnd(s, k + 1) else k
  }

  lemma {:induction false} DigitsEndAt(s: string, k: nat, j: nat)
    requires k <= j < |s| && AllDigits(s, k, j) && !IsDigit(s[j])
    ensures DigitsEnd(s, k) == j
    decreases j - k
  {
    if k < j {
      DigitsEndAt(s, k + 1, j);
    }
  }

  /** The regex matches starting at `i` (digit runs are consumed greedily;
      no backtracking is needed since a digit is never an episode mark). */
  predicate MatchesAt(s: string, i: nat)
    requires i < |s|
  {
    && IsSeasonMark(s[i])
    && var e := DigitsEnd(s, i + 1);
       e > i + 1 && e + 1 < |s| && IsEpisodeMark(s[e]) && IsDigit(s[e + 1])
  }

  lemma MatchesAtIff(s: string, i: nat)
    requires i < |s|
    ensures MatchesAt(s, i) <==> exists j :: CodeAt(s, i, j)
  {
    if MatchesAt(s, i) {
      assert CodeAt(s, i, DigitsEnd(s, i + 1));
    }
    if j :| CodeAt(s, i, j) {
      DigitsEndAt(s, i + 1, j);
    }
  }

  /** `re.search` from position `from`: the start of the leftmost match. */
  function SearchFrom(s: string, from: nat): (r: Option<nat>)
    requires from <= |s|
    ensures r.Some? ==> from <= r.value < |s| && exists j :: CodeAt(s, r.value, j)
    ensures r.Some? ==> forall i, j :: from <= i < r.value ==> !CodeAt(s, i, j)
    ensures r.None? ==> forall i, j :: from <= i ==> !CodeAt(s, i, j)
    decreases |s| - from
  {
    if from == |s| then None
    else
      MatchesAtIff(s, from);
      if MatchesAt(s, from) then Some(from) else SearchFrom(s, from + 1)
  }

  lemma SearchDecides(s: string)
    ensures SearchFrom(s, 0).Some? <==> HasEpisodeCode(s)
  {
    var found := SearchFrom(s, 0);
    if found.Some? {
      var j :| CodeAt(s, found.value, j);
    }
  }

  /** `classify_video(filepath)`. */
  function ClassifyVideo(filepath: Paths.Path): (kind: string)
    ensures kind == "series" || kind == "movie"
  {
    var name := Paths.Basename(filepath);
    if SearchFrom(name, 0).Some? then "series" else "movie"
  }

  /** A file is a series exactly when its name (not its directory) holds
      an episode code. */
  lemma ClassifyVideoDecides(filepath: Paths.Path)
    ensures ClassifyVideo(filepath) == "series" <==> HasEpisodeCode(Paths.Basename(filepath))
  {
    SearchDecides(Paths.Basename(filepath));
  }

  /** Directory components never affect the classification. */
  lemma ClassifyIgnoresDirectory(dir: Paths.Path, name: string)
    requires '/' !in name
    ensures ClassifyVideo(Paths.Join(dir, name)) == ClassifyVideo(name)
  {
    Paths.BasenameOfJoin(dir, name);
    Paths.BasenameOfJoin("", name);
  }

  /** The search is unanchored, and both digit runs may have any length:
      `S`/`s`, one or more digits, `E`/`e`, one or more digits, anywhere
      in the name, makes it a series. */
  lemma SeriesCodeAnywhere(before: string, season: char, sd: string, episode: char, ed: string, after: string)
    requires IsSeasonMark(season) && IsEpisodeMark(episode)
    requires |sd| > 0 && |ed| > 0
    requires forall k :: 0 <= k < |sd| ==> IsDigit(sd[k])
    requires forall k :: 0 <= k < |ed| ==> IsDigit(ed[k])
    requires '/' !in before + after
    ensures ClassifyVideo(before + [season] + sd + [episode] + ed + after) == "series"
  {
    var name := before + [season] + sd + [episode] + ed + after;
    var i := |before|;
    var j := i + 1 + |sd|;
    assert name[i] == season && name[j] == episode && name[j + 1] == ed[0];
    assert forall k :: i + 1 <= k < j ==> name[k] == sd[k - i - 1];
    assert CodeAt(name, i, j);
    assert '/' !in name by {
      assert forall k :: 0 <= k < |name| ==> name[k] in before + after || IsSeasonMark(name[k]) || IsDigit(name[k]) || IsEpisodeMark(name[k]);
    }
    Paths.BasenameOfJoin("", name);
  }

  /** Without any digit there is no episode code: `Show SXXEYY.mkv` is a
      movie. */
  lemma NoDigitsIsMovie(name: string)
    requires '/' !in name
    requires forall k :: 0 <= k < |name| ==> !IsDigit(name[k])
    ensures ClassifyVideo(name) == "movie"
  {
    Paths.BasenameOfJoin("", name);
    assert forall i, j :: !CodeAt(name, i, j);
  }

  lemma ExampleShortCode()
    ensures ClassifyVideo("S1E2") == "series"
  {
    SeriesCodeAnywhere("", 'S', "1", 'E', "2", "");
    assert "S1E2" == "" + ['S'] + "1" + ['E'] + "2" + "";
  }

  lemma ExampleLongCode()
    ensures ClassifyVideo("S001E0123") == "series"
  {
    SeriesCodeAnywhere("", 'S', "001", 'E', "0123", "");
    assert "S001E0123" == "" + ['S'] + "001" + ['E'] + "0123" + "";
  }

  lemma ExampleLettersOnly()
    ensures ClassifyVideo("Show SXXEYY.mkv") == "movie"
  {
    NoDigitsIsMovie("Show SXXEYY.mkv");
  }
}
