/** `extract_year_from_url` of tools/downloader/utils.py: the Reiwa year of a
    publication page, as `R<n>`, from the first usable year pattern or else
    from an `SS<yyyy>` stamp in the URL. */
module YearExtraction {
  import opened Wrappers
  import opened Decimal

  /** One entry of `YEAR_PATTERNS` as `re.search` applies it to a URL: no
      match, or a match with the integer values of its groups. */
  type Pattern = string -> Option<seq<nat>>

  /** A match the loop acts on: it has one group or two. */
  predicate Usable(m: Option<seq<nat>>)
  {
    m.Some? && (|m.value| == 1 || |m.value| == 2)
  }

  /** The year a usable match names: its only group, or the later of two. */
  function EraYear(groups: seq<nat>): (y: nat)
    requires |groups| == 1 || |groups| == 2
    ensures y in groups && forall g :: g in groups ==> g <= y
  {
    if |groups| == 1 then groups[0]
    else if groups[0] >= groups[1] then groups[0]
    else groups[1]
  }

  /** The loop over the patterns from position `i` on: the first usable match
      decides; matches with another number of groups are passed over. */
  function FromPatterns(patterns: seq<Pattern>, url: string, i: nat): (r: Option<nat>)
    requires i <= |patterns|
    ensures r.None? <==> forall j :: i <= j < |patterns| ==> !Usable(patterns[j](url))
    ensures r.Some? ==> exists j :: (i <= j < |patterns| && Usable(patterns[j](url))
      && (forall l :: i <= l < j ==> !Usable(patterns[l](url))) && r.value == EraYear(patterns[j](url).value))
    decreases |patterns| - i
  {
    if i == |patterns| then None
    else
      var m := patterns[i](url);
      if Usable(m) then Some(EraYear(m.value)) else FromPatterns(patterns, url, i + 1)
  }

  /** `SS` followed by four ASCII digits starts at position `i`. */
  predicate SsAt(url: string, i: nat)
  {
    i + 6 <= |url| && url[i] == 'S' && url[i + 1] == 'S' && AllDigits(url[i + 2..i + 6])
  }

  /** `re.search(r"SS(\d{4})", url)` from position `i`: the leftmost match. */
  function SsFrom(url: string, i: nat): (r: Option<nat>)
    ensures r.Some? ==> i <= r.value && SsAt(url, r.value)
    ensures r.Some? ==> forall j :: i <= j < r.value ==> !SsAt(url, j)
    ensures r.None? <==> forall j: nat :: i <= j ==> !SsAt(url, j)
    decreases |url| - i
  {
    if i + 6 > |url| then None
    else if SsAt(url, i) then Some(i)
    else SsFrom(url, i + 1)
  }

  /** The Reiwa year of the leftmost `SS<yyyy>` stamp: `yyyy - 2018`, 2019
      being its first year; earlier years give zero or less. */
  function SsYear(url: string): (y: Option<int>)
    ensures y.Some? ==> -2018 <= y.value < Power10(4) - 2018
  {
    match SsFrom(url, 0)
    case None => None
    case Some(i) =>
      DigitsBelowPower(url[i + 2..i + 6]);
      Some(DigitsValue(url[i + 2..i + 6]) - 2018)
  }

  /** `extract_year_from_url(url)` with `YEAR_PATTERNS` given as `patterns`. */
  function ExtractYearFromUrl(patterns: seq<Pattern>, url: string): Option<string>
  {
    match FromPatterns(patterns, url, 0)
    case Some(y) => Some("R" + NatToString(y))
    case None =>
      match SsYear(url)
      case Some(y) => Some("R" + IntToString(y))
      case None => None
  }

  /** What the result says: `None` exactly when no pattern is usable and the
      URL has no `SS<yyyy>` stamp; otherwise `R` followed by the decimal text
      of the year of the first usable pattern, or failing that of the stamp. */
  lemma ExtractYearMeaning(patterns: seq<Pattern>, url: string)
    ensures var r := ExtractYearFromUrl(patterns, url);
      r.None? <==> (forall j :: 0 <= j < |patterns| ==> !Usable(patterns[j](url))) && SsYear(url).None?
    ensures var r := ExtractYearFromUrl(patterns, url);
      r.Some? ==> |r.value| >= 2 && r.value[0] == 'R'
    ensures var r := ExtractYearFromUrl(patterns, url);
      FromPatterns(patterns, url, 0).Some? ==> ParseInt(r.value[1..]) == Some(FromPatterns(patterns, url, 0).value as int)
    ensures var r := ExtractYearFromUrl(patterns, url);
      FromPatterns(patterns, url, 0).None? && SsYear(url).Some? ==> ParseInt(r.value[1..]) == Some(SsYear(url).value)
  {
    var r := ExtractYearFromUrl(patterns, url);
    match FromPatterns(patterns, url, 0)
    case Some(y) =>
      assert r.value[1..] == NatToString(y) == IntToString(y);
      IntToStringRoundTrip(y);
    case None =>
      match SsYear(url)
      case Some(y) =>
        assert r.value[1..] == IntToString(y);
        IntToStringRoundTrip(y);
      case None =>
  }

  /** The example of the source's comment: a stamp of 2024 gives `R6`. */
  lemma StampOf2024()
    ensures ExtractYearFromUrl([], "/SS20241129/") == Some("R6")
  {
    var url := "/SS20241129/";
    assert url[3..7] == "2024" && AllDigits("2024");
    assert SsAt(url, 1) && !SsAt(url, 0);
    assert SsFrom(url, 0) == Some(1);
    assert DigitsValue("2024") == 2024 by {
      assert "2024"[..3] == "202" && "202"[..2] == "20" && "20"[..1] == "2" && "2"[..0] == [];
    }
    assert SsYear(url) == Some(6);
    assert FromPatterns([], url, 0).None?;
    assert "R" + IntToString(6) == "R6";
  }

  /** A stamp before 2019 is not clamped: 2018 gives `R0`. */
  lemma StampOf2018()
    ensures ExtractYearFromUrl([], "SS2018") == Some("R0")
  {
    var url := "SS2018";
    assert url[2..6] == "2018" && AllDigits("2018");
    assert SsAt(url, 0);
    assert DigitsValue("2018") == 2018 by {
      assert "2018"[..3] == "201" && "201"[..2] == "20" && "20"[..1] == "2" && "2"[..0] == [];
    }
    assert SsYear(url) == Some(0);
    assert FromPatterns([], url, 0).None?;
    assert "R" + IntToString(0) == "R0";
  }

  /** A range pattern gives its later year; a match with three groups is
      passed over in favour of a later pattern. */
  lemma RangeAndSkippedPatterns(range: Pattern, three: Pattern, single: Pattern, url: string)
    requires range(url) == Some([3, 5]) && three(url) == Some([1, 2, 3]) && single(url) == Some([4])
    ensures ExtractYearFromUrl([range], url) == Some("R5")
    ensures ExtractYearFromUrl([three, single], url) == Some("R4")
  {
    assert Usable(range(url)) && !Usable(three(url)) && Usable(single(url));
    assert FromPatterns([range], url, 0) == Some(5);
    assert FromPatterns([three, single], url, 0) == Some(4);
    assert "R" + NatToString(5) == "R5";
    assert "R" + NatToString(4) == "R4";
  }
}
