/** `sanitize_filename` of tools/downloader/utils.py: characters that file
    systems refuse become `_`, and an over-long name is cut down in its stem. */
module FileNames {
  import opened Wrappers

  /** The length above which a name is shortened (leaving room under the
      255-character limit of Windows). */
  const MAX_LENGTH: nat := 240

  /** The nine characters of the regular-expression class in `sanitize_filename`. */
  predicate IsInvalid(c: char)
  {
    c == '\\' || c == '/' || c == '*' || c == '?' || c == ':' || c == '"' || c == '<' || c == '>' || c == '|'
  }

  predicate Safe(s: string)
  {
    forall i :: 0 <= i < |s| ==> !IsInvalid(s[i])
  }

  /** `re.sub(invalid_chars, "_", s)`. */
  function ReplaceInvalid(s: string): (r: string)
    ensures |r| == |s|
    ensures forall i :: 0 <= i < |s| ==> r[i] == (if IsInvalid(s[i]) then '_' else s[i])
  {
    if s == [] then []
    else [if IsInvalid(s[0]) then '_' else s[0]] + ReplaceInvalid(s[1..])
  }

  /** `name.rfind('.')`: the position of the last dot. */
  function LastDot(name: string): (r: Option<nat>)
    ensures r.Some? ==> r.value < |name| && name[r.value] == '.'
    ensures r.Some? ==> forall j :: r.value < j < |name| ==> name[j] != '.'
    ensures r.None? <==> forall j :: 0 <= j < |name| ==> name[j] != '.'
  {
    if name == [] then None
    else if name[|name| - 1] == '.' then Some(|name| - 1)
    else LastDot(name[..|name| - 1])
  }

  /** Where `Path(name).suffix` starts: the last dot, when it is neither the
      first nor the last character. */
  function SuffixStart(name: string): (r: Option<nat>)
    ensures r.Some? ==> 0 < r.value < |name| - 1 && name[r.value] == '.'
    ensures r.Some? ==> LastDot(name) == r
    ensures r.None? <==> LastDot(name).None? || LastDot(name).value == 0 || LastDot(name).value == |name| - 1
  {
    match LastDot(name)
    case Some(i) => if 0 < i < |name| - 1 then Some(i) else None
    case None => None
  }

  /** `Path(name).suffix`: the extension with its dot, or empty. */
  function Suffix(name: string): string
  {
    match SuffixStart(name)
    case Some(i) => name[i..]
    case None => []
  }

  /** `Path(name).stem`: the name without its suffix. */
  function Stem(name: string): string
  {
    match SuffixStart(name)
    case Some(i) => name[..i]
    case None => name
  }

  /** `s[:e]` in Python: a negative end counts from the back. */
  function SliceTo(s: string, e: int): (r: string)
    ensures |r| <= |s| && r == s[..|r|]
    ensures |r| == if e >= 0 then (if e < |s| then e else |s|) else (if |s| + e > 0 then |s| + e else 0)
  {
    if e >= 0 then (if e < |s| then s[..e] else s)
    else if |s| + e > 0 then s[..|s| + e]
    else []
  }

  /** `sanitize_filename(filename)`. */
  function SanitizeFilename(filename: string): string
  {
    var sanitized := ReplaceInvalid(filename);
    if |sanitized| > MAX_LENGTH then
      var suffix := Suffix(sanitized);
      SliceTo(Stem(sanitized), MAX_LENGTH - |suffix|) + suffix
    else sanitized
  }

  /** Stem and suffix together give the name back. */
  lemma StemSuffixSplit(name: string)
    ensures Stem(name) + Suffix(name) == name
    ensures Suffix(name) == [] || (Suffix(name)[0] == '.' && forall j :: 1 <= j < |Suffix(name)| ==> Suffix(name)[j] != '.')
  {
  }

  /** The replacement leaves no invalid character, and changes no other. */
  lemma ReplaceInvalidIsSafe(s: string)
    ensures Safe(ReplaceInvalid(s))
    ensures Safe(s) ==> ReplaceInvalid(s) == s
  {
  }

  lemma SafeConcat(a: string, b: string)
    ensures Safe(a + b) <==> Safe(a) && Safe(b)
  {
    assert forall i :: 0 <= i < |a| ==> (a + b)[i] == a[i];
    assert forall i :: 0 <= i < |b| ==> (a + b)[|a| + i] == b[i];
  }

  /** No character of the result is one of `\ / * ? : " < > |`. */
  lemma SanitizedIsSafe(filename: string)
    ensures Safe(SanitizeFilename(filename))
  {
    ReplaceInvalidIsSafe(filename);
    if |ReplaceInvalid(filename)| > MAX_LENGTH {
      ShortenedIsSafe(ReplaceInvalid(filename), MAX_LENGTH);
    }
  }

  /** Cutting a safe name's stem and keeping its suffix leaves it safe. */
  lemma ShortenedIsSafe(name: string, limit: int)
    requires Safe(name)
    ensures Safe(SliceTo(Stem(name), limit - |Suffix(name)|) + Suffix(name))
  {
    var stem, suffix := Stem(name), Suffix(name);
    StemSuffixSplit(name);
    SafeConcat(stem, suffix);
    var head := SliceTo(stem, limit - |suffix|);
    SafePrefix(stem, |head|);
    SafeConcat(head, suffix);
  }

  lemma SafePrefix(s: string, n: nat)
    requires n <= |s| && Safe(s)
    ensures Safe(s[..n])
  {
  }

  /** A name of at most 240 characters only has its invalid characters
      replaced; its length does not change. */
  lemma ShortNameKeepsLength(filename: string)
    requires |filename| <= MAX_LENGTH
    ensures SanitizeFilename(filename) == ReplaceInvalid(filename)
    ensures |SanitizeFilename(filename)| == |filename|
  {
  }

  /** The shape of the cut: a prefix of the stem, then the whole suffix. */
  lemma CutShape(stem: string, suffix: string)
    requires |stem| + |suffix| > MAX_LENGTH
    ensures var r := SliceTo(stem, MAX_LENGTH - |suffix|) + suffix;
      && |r| >= |suffix|
      && r[|r| - |suffix|..] == suffix
      && r[..|r| - |suffix|] == stem[..|r| - |suffix|]
      && (|suffix| <= MAX_LENGTH <==> |r| == MAX_LENGTH)
      && (|suffix| > MAX_LENGTH <==> |r| > MAX_LENGTH)
  {
    var head := SliceTo(stem, MAX_LENGTH - |suffix|);
    var r := head + suffix;
    assert r[|head|..] == suffix;
    assert r[..|head|] == head;
  }

  /** A longer name keeps its suffix and a prefix of its stem; it ends with
      the suffix, and it is exactly 240 characters long if and only if the
      suffix is at most 240 characters long (otherwise it is longer). */
  lemma LongNameTruncated(filename: string)
    requires |filename| > MAX_LENGTH
    ensures var sanitized := ReplaceInvalid(filename);
      var r := SanitizeFilename(filename);
      && |r| >= |Suffix(sanitized)|
      && r[|r| - |Suffix(sanitized)|..] == Suffix(sanitized)
      && r[..|r| - |Suffix(sanitized)|] == Stem(sanitized)[..|r| - |Suffix(sanitized)|]
    ensures var sanitized := ReplaceInvalid(filename);
      |Suffix(sanitized)| <= MAX_LENGTH <==> |SanitizeFilename(filename)| == MAX_LENGTH
    ensures var sanitized := ReplaceInvalid(filename);
      |Suffix(sanitized)| > MAX_LENGTH <==> |SanitizeFilename(filename)| > MAX_LENGTH
  {
    var sanitized := ReplaceInvalid(filename);
    StemSuffixSplit(sanitized);
    CutShape(Stem(sanitized), Suffix(sanitized));
  }

  /** Sanitizing a result of at most 240 characters changes nothing. */
  lemma SanitizeIdempotent(filename: string)
    requires |SanitizeFilename(filename)| <= MAX_LENGTH
    ensures SanitizeFilename(SanitizeFilename(filename)) == SanitizeFilename(filename)
  {
    SanitizedIsSafe(filename);
    ReplaceInvalidIsSafe(SanitizeFilename(filename));
  }
}
