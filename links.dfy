/** The external-link scan of a post body: `re.findall` with the pattern
    `https?://(?:mega|drive|dropbox|puu.sh)` followed by a run of characters
    other than whitespace, `"`, `<` and `>`. The pattern is written in the
    source as a raw string with doubled backslashes, so as written the run
    stops at a backslash or at the letter `s` instead of at whitespace, and
    the `puu` alternative asks for a backslash. Both readings are modelled;
    the post records carry the links as written. */
module ExternalLinks {
  import opened Wrappers
  import opened PyStrings

  /** The pattern as the source spells it, or as it evidently means it. */
  datatype Reading = AsWritten | Intended

  /** `w` occurs in `s` at position `p`. */
  predicate At(s: string, p: nat, w: string) {
    p + |w| <= |s| && forall i :: p <= i < p + |w| ==> s[i] == w[i - p]
  }

  /** Where `w` occurs, each of its characters is in `s`. */
  lemma AtChars(s: string, p: nat, w: string)
    requires At(s, p, w)
    ensures p + |w| <= |s|
    ensures forall i :: 0 <= i < |w| ==> s[p + i] == w[i]
  {
    forall i | 0 <= i < |w|
      ensures s[p + i] == w[i]
    {
      assert s[p + i] == w[p + i - p];
    }
  }

  /** Where `https?://` ends when it matches at `p`. */
  function SchemeEnd(s: string, p: nat): (r: Option<nat>)
    ensures r.Some? ==> p + 7 <= r.value <= |s|
  {
    if At(s, p, "https://") then Some(p + 8)
    else if At(s, p, "http://") then Some(p + 7)
    else None
  }

  /** Where the site alternative ends when it matches at `p`. As written,
      `puu\\.sh` in a raw string is a backslash, any character but a line
      break, then `sh`. */
  function HostEnd(s: string, p: nat, reading: Reading): (r: Option<nat>)
    ensures r.Some? ==> p + 4 <= r.value <= |s|
  {
    if At(s, p, "mega") then Some(p + 4)
    else if At(s, p, "drive") then Some(p + 5)
    else if At(s, p, "dropbox") then Some(p + 7)
    else if reading == Intended then
      if At(s, p, "puu.sh") then Some(p + 6) else None
    else if At(s, p, "puu\\") && p + 4 < |s| && s[p + 4] != '\n' && At(s, p + 5, "sh") then Some(p + 7)
    else None
  }

  /** A character the run may hold: as written the class `[^\\s\"<>]` of a
      raw string leaves out a backslash, `s`, `"`, `<` and `>`; as meant it
      leaves out whitespace, `"`, `<` and `>`. */
  predicate LinkChar(c: char, reading: Reading) {
    if reading == Intended then !IsSpace(c) && c != '"' && c != '<' && c != '>'
    else c != '\\' && c != 's' && c != '"' && c != '<' && c != '>'
  }

  /** The end of the longest run of link characters from `q`: the greedy `+`. */
  function RunEnd(s: string, q: nat, reading: Reading): (e: nat)
    requires q <= |s|
    ensures q <= e <= |s|
    decreases |s| - q
  {
    if q < |s| && LinkChar(s[q], reading) then RunEnd(s, q + 1, reading) else q
  }

  /** The run holds only link characters and stops before the first other
      character or at the end of the text. */
  lemma {:induction false} RunEndChars(s: string, q: nat, reading: Reading)
    requires q <= |s|
    ensures var e := RunEnd(s, q, reading);
      && (forall i :: q <= i < e ==> LinkChar(s[i], reading))
      && (e == |s| || !LinkChar(s[e], reading))
    decreases |s| - q
  {
    if q < |s| && LinkChar(s[q], reading) {
      RunEndChars(s, q + 1, reading);
    }
  }

  /** Where a match starting at `p` ends, if one starts there. The scheme
      and the site alternatives each match in at most one way, and nothing
      follows the greedy run, so no backtracking changes the outcome. */
  function MatchEnd(s: string, p: nat, reading: Reading): (r: Option<nat>)
    ensures r.Some? ==> p < r.value <= |s|
  {
    match SchemeEnd(s, p)
    case None => None
    case Some(h) =>
      match HostEnd(s, h, reading)
      case None => None
      case Some(q) =>
        var e := RunEnd(s, q, reading);
        if e > q then Some(e) else None
  }

  /** A matcher for `s`: given a position, where a match starting there
      ends, if one does. */
  type Matcher = nat -> Option<nat>

  /** Every match the matcher reports is non-empty and lies within `s`. */
  ghost predicate Advances(s: string, m: Matcher) {
    forall q: nat :: m(q).Some? ==> q < m(q).value <= |s|
  }

  /** The scan `re.findall` makes from position `p` with any matcher: the
      leftmost match, then the search goes on where it ended. */
  function Scan(s: string, p: nat, m: Matcher): seq<string>
    requires p <= |s| && Advances(s, m)
    decreases |s| - p
  {
    if p == |s| then []
    else match m(p)
      case Some(e) => [s[p..e]] + Scan(s, e, m)
      case None => Scan(s, p + 1, m)
  }

  /** Where the `i`-th text the scan reports starts. */
  function ScanStart(s: string, p: nat, m: Matcher, i: nat): nat
    requires p <= |s| && Advances(s, m) && i < |Scan(s, p, m)|
    decreases |s| - p
  {
    match m(p)
    case Some(e) => if i == 0 then p else ScanStart(s, e, m, i - 1)
    case None => ScanStart(s, p + 1, m, i)
  }

  /** Every text the scan reports is the whole of a match the matcher
      reports, at or after the position the scan started from. */
  lemma {:induction false} ScanSound(s: string, p: nat, m: Matcher, i: nat)
    requires p <= |s| && Advances(s, m) && i < |Scan(s, p, m)|
    ensures var q := ScanStart(s, p, m, i);
      var l := Scan(s, p, m)[i];
      p <= q && q + |l| <= |s| && m(q) == Some(q + |l|) && l == s[q..q + |l|]
    decreases |s| - p
  {
    match m(p)
    case Some(e) =>
      if i > 0 {
        ScanSound(s, e, m, i - 1);
      }
    case None =>
      ScanSound(s, p + 1, m, i);
  }

  /** The pattern as a matcher over `s`. */
  function PatternMatcher(s: string, reading: Reading): Matcher {
    q => MatchEnd(s, q, reading)
  }

  /** Every match of the pattern is non-empty and lies within the text. */
  lemma PatternAdvances(s: string, reading: Reading)
    ensures Advances(s, PatternMatcher(s, reading))
  {
    forall q: nat | PatternMatcher(s, reading)(q).Some?
      ensures q < PatternMatcher(s, reading)(q).value <= |s|
    {
      assert PatternMatcher(s, reading)(q) == MatchEnd(s, q, reading);
    }
  }

  /** `re.findall` of the pattern from position `p`. */
  function FindAll(s: string, p: nat, reading: Reading): seq<string>
    requires p <= |s|
  {
    PatternAdvances(s, reading);
    Scan(s, p, PatternMatcher(s, reading))
  }

  /** The links found in a post body. */
  function Links(html: string, reading: Reading): seq<string> {
    FindAll(html, 0, reading)
  }

  /** `l` is the text of a match of the pattern that starts at `q`. */
  predicate MatchedAt(s: string, q: nat, l: string, reading: Reading) {
    q + |l| <= |s| && MatchEnd(s, q, reading) == Some(q + |l|) && l == s[q..q + |l|]
  }

  /** Where a match starts, `findall` reports it and resumes at its end. */
  lemma FindAllAtMatch(s: string, p: nat, e: nat, reading: Reading)
    requires p < |s| && MatchEnd(s, p, reading) == Some(e)
    ensures FindAll(s, p, reading) == [s[p..e]] + FindAll(s, e, reading)
  {
    assert PatternMatcher(s, reading)(p) == Some(e);
  }

  /** Elsewhere it moves on by one character. */
  lemma FindAllPastMiss(s: string, p: nat, reading: Reading)
    requires p < |s| && MatchEnd(s, p, reading).None?
    ensures FindAll(s, p, reading) == FindAll(s, p + 1, reading)
  {
    assert PatternMatcher(s, reading)(p).None?;
  }

  /** Where the `i`-th link `findall` reports from `p` starts. */
  function NthStart(s: string, p: nat, reading: Reading, i: nat): nat
    requires p <= |s| && i < |FindAll(s, p, reading)|
  {
    PatternAdvances(s, reading);
    ScanStart(s, p, PatternMatcher(s, reading), i)
  }

  /** Every link found is the text of a match of the pattern, starting at
      or after the position the search started from. */
  lemma FindAllSound(s: string, p: nat, reading: Reading, i: nat)
    requires p <= |s| && i < |FindAll(s, p, reading)|
    ensures var q := NthStart(s, p, reading, i);
      p <= q && MatchedAt(s, q, FindAll(s, p, reading)[i], reading)
  {
    var m := PatternMatcher(s, reading);
    PatternAdvances(s, reading);
    ScanSound(s, p, m, i);
    var q := ScanStart(s, p, m, i);
    assert m(q) == MatchEnd(s, q, reading);
  }

  /** The characters the scheme and the site names are made of. */
  predicate WordChar(c: char) {
    ('a' <= c <= 'z') || c == '.' || c == ':' || c == '/'
  }

  /** A word made of those characters only. */
  predicate Clean(w: string)
    decreases |w|
  {
    w == [] || (WordChar(w[0]) && Clean(w[1..]))
  }

  /** Where a clean word occurs, the text is clean. */
  lemma {:induction false} CleanAt(s: string, p: nat, w: string)
    requires At(s, p, w) && Clean(w)
    ensures p + |w| <= |s|
    ensures forall i :: p <= i < p + |w| ==> LinkChar(s[i], Intended)
    decreases |w|
  {
    AtChars(s, p, w);
    if w != [] {
      CleanAt(s, p + 1, w[1..]);
      assert WordChar(s[p]);
    }
  }

  /** The scheme and site words are clean. */
  lemma SchemesClean()
    ensures Clean("https://") && Clean("http://")
  {
  }

  lemma ShortSitesClean()
    ensures Clean("mega") && Clean("drive")
  {
  }

  lemma LongSitesClean()
    ensures Clean("dropbox") && Clean("puu.sh")
  {
  }

  /** The scheme a match starts with is clean. */
  lemma SchemeClean(s: string, p: nat)
    requires SchemeEnd(s, p).Some?
    ensures forall i :: p <= i < SchemeEnd(s, p).value ==> LinkChar(s[i], Intended)
  {
    SchemesClean();
    if At(s, p, "https://") {
      CleanAt(s, p, "https://");
    } else {
      CleanAt(s, p, "http://");
    }
  }

  /** The site name of an intended match is clean. */
  lemma HostClean(s: string, h: nat)
    requires HostEnd(s, h, Intended).Some?
    ensures forall i :: h <= i < HostEnd(s, h, Intended).value ==> LinkChar(s[i], Intended)
  {
    ShortSitesClean();
    LongSitesClean();
    if At(s, h, "mega") {
      CleanAt(s, h, "mega");
    } else if At(s, h, "drive") {
      CleanAt(s, h, "drive");
    } else if At(s, h, "dropbox") {
      CleanAt(s, h, "dropbox");
    } else {
      CleanAt(s, h, "puu.sh");
    }
  }

  /** Under the intended reading a match holds no whitespace, quote or angle
      bracket: the scheme and the site names have none, and the run stops at
      the first one. */
  lemma MatchIntendedClean(s: string, p: nat, e: nat)
    requires MatchEnd(s, p, Intended) == Some(e)
    ensures forall i :: p <= i < e ==> LinkChar(s[i], Intended)
  {
    var h := SchemeEnd(s, p).value;
    var q := HostEnd(s, h, Intended).value;
    SchemeClean(s, p);
    HostClean(s, h);
    RunEndChars(s, q, Intended);
  }


  /** The text of a match of the intended pattern is clean. */
  lemma MatchedClean(s: string, q: nat, l: string)
    requires MatchedAt(s, q, l, Intended)
    ensures forall j :: 0 <= j < |l| ==> LinkChar(l[j], Intended)
  {
    MatchIntendedClean(s, q, q + |l|);
    assert forall j :: 0 <= j < |l| ==> l[j] == s[q + j];
  }

  /** Every link the intended pattern finds is free of whitespace, quotes
      and angle brackets. */
  lemma LinksIntendedClean(html: string, i: nat)
    requires i < |Links(html, Intended)|
    ensures forall j :: 0 <= j < |Links(html, Intended)[i]| ==> LinkChar(Links(html, Intended)[i][j], Intended)
  {
    FindAllSound(html, 0, Intended, i);
    MatchedClean(html, NthStart(html, 0, Intended, i), Links(html, Intended)[i]);
  }


  /** A match starts with a scheme, is longer than a scheme and the
      shortest site name, and ends in a character the run accepts. */
  lemma MatchBounds(s: string, p: nat, e: nat, reading: Reading)
    requires MatchEnd(s, p, reading) == Some(e)
    ensures p + 12 <= e
    ensures At(s, p, "https://") || At(s, p, "http://")
    ensures LinkChar(s[e - 1], reading)
  {
    var h := SchemeEnd(s, p).value;
    var q := HostEnd(s, h, reading).value;
    RunEndChars(s, q, reading);
  }

  /** Under either reading, every link found starts with `http://` or
      `https://` and ends in a character the run accepts. */
  lemma LinksShape(html: string, reading: Reading, i: nat)
    requires i < |Links(html, reading)|
    ensures var l := Links(html, reading)[i];
      && |l| >= 12
      && (At(l, 0, "https://") || At(l, 0, "http://"))
      && LinkChar(l[|l| - 1], reading)
  {
    FindAllSound(html, 0, reading, i);
    var q := NthStart(html, 0, reading, i);
    var l := Links(html, reading)[i];
    MatchBounds(html, q, q + |l|, reading);
    assert l[|l| - 1] == html[q + |l| - 1];
    if At(html, q, "https://") {
      AtInSlice(html, q, |l|, "https://");
    } else {
      AtInSlice(html, q, |l|, "http://");
    }
  }

  /** A word at the start of a slice occurs at the start of the slice itself. */
  lemma AtInSlice(s: string, q: nat, n: nat, w: string)
    requires q + n <= |s| && |w| <= n && At(s, q, w)
    ensures At(s[q..q + n], 0, w)
  {
    forall i | 0 <= i < |w|
      ensures s[q..q + n][i] == w[i]
    {
      assert s[q + i] == w[q + i - q];
    }
  }

  /** One differing character rules a word out. */
  lemma NotAt(s: string, p: nat, w: string, i: nat)
    requires i < |w| && p + i < |s| && s[p + i] != w[i]
    ensures !At(s, p, w)
  {
    if p + |w| <= |s| {
      assert w[p + i - p] == w[i];
    }
  }

  /** The schemes the pattern accepts. */
  predicate IsScheme(w: string) {
    w == "https://" || w == "http://"
  }

  /** The site names the pattern accepts under `reading`. */
  predicate IsSite(w: string, reading: Reading) {
    w == "mega" || w == "drive" || w == "dropbox" || (reading == Intended && w == "puu.sh")
  }

  /** A site name at `h` is matched whole. */
  lemma HostAt(s: string, h: nat, site: string, reading: Reading)
    requires IsSite(site, reading) && At(s, h, site)
    ensures HostEnd(s, h, reading) == Some(h + |site|)
  {
    assert s[h] == site[h - h];
    if site == "dropbox" {
      assert s[h + 2] == site[h + 2 - h];
      NotAt(s, h, "drive", 2);
    }
  }

  /** The characters from `q` up to `n` are link characters, and the one at
      `n`, if any, is not. */
  predicate RunTo(s: string, q: nat, n: nat, reading: Reading) {
    && q <= n <= |s|
    && (forall i :: q <= i < n ==> LinkChar(s[i], reading))
    && (n == |s| || !LinkChar(s[n], reading))
  }

  /** Such a run is what the greedy `+` takes. */
  lemma {:induction false} RunEndIs(s: string, q: nat, n: nat, reading: Reading)
    requires RunTo(s, q, n, reading)
    ensures RunEnd(s, q, reading) == n
    decreases n - q
  {
    if q < n {
      RunEndIs(s, q + 1, n, reading);
    }
  }

  /** A match is a scheme, a site name and a non-empty run, one after the other. */
  lemma MatchOf(s: string, p: nat, h: nat, q: nat, n: nat, reading: Reading)
    requires SchemeEnd(s, p) == Some(h) && HostEnd(s, h, reading) == Some(q)
    requires q <= |s| && RunEnd(s, q, reading) == n && n > q
    ensures MatchEnd(s, p, reading) == Some(n)
  {
  }

  /** A match at the start of the text is the first link. */
  lemma LinksFromMatch(s: string, n: nat, w: string, reading: Reading)
    requires MatchEnd(s, 0, reading) == Some(n) && s[0..n] == w
    ensures Links(s, reading) == [w] + FindAll(s, n, reading)
  {
    FindAllAtMatch(s, 0, n, reading);
  }

  /** A text that starts with a scheme, a site name and a non-empty run of
      link characters yields that prefix as its first link, and the search
      goes on after it. */
  lemma FirstLink(s: string, scheme: string, site: string, n: nat, reading: Reading)
    requires IsScheme(scheme) && IsSite(site, reading)
    requires At(s, 0, scheme) && At(s, |scheme|, site)
    requires |scheme| + |site| < n && RunTo(s, |scheme| + |site|, n, reading)
    ensures Links(s, reading) == [s[..n]] + FindAll(s, n, reading)
  {
    var h := |scheme|;
    var q := h + |site|;
    SchemeAt(s, 0, scheme);
    HostAt(s, h, site, reading);
    RunEndIs(s, q, n, reading);
    MatchOf(s, 0, h, q, n, reading);
    LinksFromMatch(s, n, s[..n], reading);
  }

  /** Too close to the end for `http://` to fit, nothing more is found. */
  lemma {:induction false} NothingNearEnd(s: string, p: nat, reading: Reading)
    requires p <= |s| < p + 7
    ensures FindAll(s, p, reading) == []
    decreases |s| - p
  {
    if p < |s| {
      NothingNearEnd(s, p + 1, reading);
    }
  }

  /** A link followed by fewer than seven characters is the only one found. */
  lemma OnlyLink(s: string, scheme: string, site: string, n: nat, reading: Reading)
    requires IsScheme(scheme) && IsSite(site, reading)
    requires At(s, 0, scheme) && At(s, |scheme|, site)
    requires |scheme| + |site| < n && RunTo(s, |scheme| + |site|, n, reading)
    requires |s| < n + 7
    ensures Links(s, reading) == [s[..n]]
  {
    FirstLink(s, scheme, site, n, reading);
    NothingNearEnd(s, n, reading);
  }

  /** `At` from the slice it names. */
  lemma AtSlice(s: string, p: nat, w: string)
    requires p + |w| <= |s| && s[p..p + |w|] == w
    ensures At(s, p, w)
  {
    forall i | p <= i < p + |w|
      ensures s[i] == w[i - p]
    {
      assert s[p..p + |w|][i - p] == s[i];
    }
  }

  lemma DriveWords()
    ensures At("https://drive.x/s", 0, "https://") && At("https://drive.x/s", 8, "drive")
  {
    var s := "https://drive.x/s";
    assert s[0..8] == "https://";
    assert s[8..13] == "drive";
    AtSlice(s, 0, "https://");
    AtSlice(s, 8, "drive");
  }

  lemma DriveRunAsWritten()
    ensures RunTo("https://drive.x/s", 13, 16, AsWritten)
    ensures "https://drive.x/s"[..16] == "https://drive.x/"
  {
    var s := "https://drive.x/s";
    forall i | 13 <= i < 16
      ensures LinkChar(s[i], AsWritten)
    {
      assert i == 13 || i == 14 || i == 15;
    }
  }

  lemma DriveRunIntended()
    ensures RunTo("https://drive.x/s", 13, 17, Intended)
    ensures "https://drive.x/s"[..17] == "https://drive.x/s"
  {
    var s := "https://drive.x/s";
    forall i | 13 <= i < 17
      ensures LinkChar(s[i], Intended)
    {
      assert i == 13 || i == 14 || i == 15 || i == 16;
    }
  }

  /** As written, the run stops at the letter `s`: a Google Drive folder
      link `https://drive.../folders/...` is cut to `.../folder`. Here the
      shortest such text. */
  lemma AsWrittenCutsAtS()
    ensures Links("https://drive.x/s", AsWritten) == ["https://drive.x/"]
  {
    DriveWords();
    DriveRunAsWritten();
    OnlyLink("https://drive.x/s", "https://", "drive", 16, AsWritten);
  }

  /** The same text read with the intended pattern gives the whole link. */
  lemma IntendedKeepsS()
    ensures Links("https://drive.x/s", Intended) == ["https://drive.x/s"]
  {
    DriveWords();
    DriveRunIntended();
    OnlyLink("https://drive.x/s", "https://", "drive", 17, Intended);
  }

  lemma MegaWords()
    ensures At("http://mega.n a", 0, "http://") && At("http://mega.n a", 7, "mega")
  {
    var s := "http://mega.n a";
    assert s[0..7] == "http://";
    assert s[7..11] == "mega";
    AtSlice(s, 0, "http://");
    AtSlice(s, 7, "mega");
  }

  lemma MegaRunAsWritten()
    ensures RunTo("http://mega.n a", 11, 15, AsWritten)
    ensures "http://mega.n a"[..15] == "http://mega.n a"
  {
    var s := "http://mega.n a";
    forall i | 11 <= i < 15
      ensures LinkChar(s[i], AsWritten)
    {
      assert i == 11 || i == 12 || i == 13 || i == 14;
    }
  }

  lemma MegaRunIntended()
    ensures RunTo("http://mega.n a", 11, 13, Intended)
    ensures "http://mega.n a"[..13] == "http://mega.n"
  {
    var s := "http://mega.n a";
    forall i | 11 <= i < 13
      ensures LinkChar(s[i], Intended)
    {
      assert i == 11 || i == 12;
    }
  }

  /** As written, a link runs on across a space into the following word. */
  lemma AsWrittenRunsPastSpace()
    ensures Links("http://mega.n a", AsWritten) == ["http://mega.n a"]
  {
    MegaWords();
    MegaRunAsWritten();
    OnlyLink("http://mega.n a", "http://", "mega", 15, AsWritten);
  }

  /** The intended pattern stops before the space. */
  lemma IntendedStopsAtSpace()
    ensures Links("http://mega.n a", Intended) == ["http://mega.n"]
  {
    MegaWords();
    MegaRunIntended();
    OnlyLink("http://mega.n a", "http://", "mega", 13, Intended);
  }

  /** A scheme at `p` is matched whole. */
  lemma SchemeAt(s: string, p: nat, scheme: string)
    requires IsScheme(scheme) && At(s, p, scheme)
    ensures SchemeEnd(s, p) == Some(p + |scheme|)
  {
    if scheme == "http://" {
      assert s[p + 4] == scheme[p + 4 - p];
      NotAt(s, p, "https://", 4);
    }
  }

  /** As written, `puu\\.sh` asks for a backslash where a puu.sh link has a
      dot, so no site alternative matches there; the intended one does. */
  lemma PuushHost(s: string, h: nat)
    requires At(s, h, "puu.sh")
    ensures HostEnd(s, h, AsWritten).None?
    ensures HostEnd(s, h, Intended) == Some(h + 6)
  {
    AtChars(s, h, "puu.sh");
    NotAt(s, h, "mega", 0);
    NotAt(s, h, "drive", 0);
    NotAt(s, h, "dropbox", 0);
    NotAt(s, h, "puu\\", 3);
  }

  /** So as written no match starts at a puu.sh link, while the intended
      pattern matches it whenever a link character follows the site name. */
  lemma AsWrittenMissesPuush(scheme: string, s: string, p: nat)
    requires IsScheme(scheme)
    requires At(s, p, scheme) && At(s, p + |scheme|, "puu.sh")
    ensures MatchEnd(s, p, AsWritten).None?
    ensures p + |scheme| + 6 < |s| && LinkChar(s[p + |scheme| + 6], Intended) ==>
      MatchEnd(s, p, Intended).Some?
  {
    SchemeAt(s, p, scheme);
    PuushHost(s, p + |scheme|);
  }

}
