/** File-name helpers: turning a post title into a Windows-safe folder name,
    and renumbering a post's images `1.jpg`, `2.png`, ... (zero-padded to
    the width the count needs). */
module FileNames {
  import opened PyStrings
  import opened Records

  /** A Unicode general category as `unicodedata.category` names it, for
      instance `Cc` or `So`: a major class letter and a subclass letter. The
      Unicode database itself is a parameter of the functions below. */
  datatype Category = Category(major: char, minor: char)

  /** The characters `sanitize_filename` replaces by `_`. */
  predicate Reserved(c: char) {
    c == '\\' || c == '/' || c == ':' || c == '*' || c == '?' || c == '"' || c == '<' || c == '>' || c == '|'
  }

  /** A control, format, surrogate, private-use or unassigned character. */
  predicate IsOther(c: char, category: char -> Category) {
    category(c).major == 'C'
  }

  /** An "other symbol" character, where emoji belong. */
  predicate IsOtherSymbol(c: char, category: char -> Category) {
    category(c) == Category('S', 'o')
  }

  predicate TrailingJunk(c: char) {
    c == ' ' || c == '.'
  }

  /** `re.sub(r'[\\/:*?"<>|]', '_', s)`. */
  function ReplaceReserved(s: string): (r: string)
    ensures |r| == |s|
    ensures forall i :: 0 <= i < |s| ==> r[i] == if Reserved(s[i]) then '_' else s[i]
    ensures forall i :: 0 <= i < |r| ==> !Reserved(r[i])
  {
    seq(|s|, i requires 0 <= i < |s| => if Reserved(s[i]) then '_' else s[i])
  }

  /** `''.join(c for c in s if keep(c))`. */
  function Filter(s: string, keep: char -> bool): (r: string)
    ensures |r| <= |s|
  {
    if s == [] then []
    else if keep(s[0]) then [s[0]] + Filter(s[1..], keep)
    else Filter(s[1..], keep)
  }

  /** Every character `Filter` keeps passes the test. */
  lemma {:induction false} FilterKept(s: string, keep: char -> bool)
    ensures forall i :: 0 <= i < |Filter(s, keep)| ==> keep(Filter(s, keep)[i])
  {
    if s != [] {
      FilterKept(s[1..], keep);
    }
  }

  /** A string whose characters all pass the test is kept whole. */
  lemma {:induction false} FilterKeepsAll(s: string, keep: char -> bool)
    requires forall i :: 0 <= i < |s| ==> keep(s[i])
    ensures Filter(s, keep) == s
  {
    if s != [] {
      FilterKeepsAll(s[1..], keep);
      assert [s[0]] + s[1..] == s;
    }
  }

  /** Every character of `s` that passes `p` still passes it after filtering. */
  lemma {:induction false} FilterPreserves(s: string, keep: char -> bool, p: char -> bool)
    requires forall i :: 0 <= i < |s| ==> p(s[i])
    ensures forall i :: 0 <= i < |Filter(s, keep)| ==> p(Filter(s, keep)[i])
  {
    if s != [] {
      FilterPreserves(s[1..], keep, p);
    }
  }

  /** A character a Windows file name may hold, as `sanitize_filename` sees it. */
  predicate Safe(c: char, category: char -> Category) {
    !Reserved(c) && !IsOther(c, category) && !IsOtherSymbol(c, category)
  }

  /** The title once reserved characters are replaced and other characters
      and other symbols are dropped: only safe characters are left. */
  function Cleaned(title: string, category: char -> Category): (r: string)
    ensures forall i :: 0 <= i < |r| ==> Safe(r[i], category)
  {
    var replaced := ReplaceReserved(title);
    var printable := Filter(replaced, c => !IsOther(c, category));
    var kept := Filter(printable, c => !IsOtherSymbol(c, category));
    FilterPreserves(replaced, c => !IsOther(c, category), c => !Reserved(c));
    FilterKept(replaced, c => !IsOther(c, category));
    FilterPreserves(printable, c => !IsOtherSymbol(c, category), c => !Reserved(c) && !IsOther(c, category));
    FilterKept(printable, c => !IsOtherSymbol(c, category));
    kept
  }

  /** `max_length`'s default. */
  const DefaultMaxLength := 150

  /** The length Python's `s[:n]` keeps of a string of length `len`: a
      negative `n` counts from the end. */
  function SliceLength(len: nat, n: int): (k: nat)
    ensures k <= len
    ensures n >= 0 ==> k <= n
  {
    if n >= 0 then (if n < len then n else len)
    else if len + n > 0 then len + n else 0
  }

  /** `s.rstrip(' .')[:max_length].rstrip(' .')`: the longest prefix of
      `s`, within the limit, that does not end in a space or a dot. Only
      such characters lie between its end and the cut. */
  function TrimCut(s: string, maxLength: int): (r: string)
    ensures |r| <= |s| && r == s[..|r|]
    ensures maxLength >= 0 ==> |r| <= maxLength
    ensures r == [] || !TrailingJunk(r[|r| - 1])
    ensures var n := SliceLength(|RStripBy(s, TrailingJunk)|, maxLength);
      |r| <= n && forall i :: |r| <= i < n ==> TrailingJunk(s[i])
  {
    var trimmed := RStripBy(s, TrailingJunk);
    var n := SliceLength(|trimmed|, maxLength);
    var cut := trimmed[..n];
    var r := RStripBy(cut, TrailingJunk);
    assert forall i :: 0 <= i < n ==> cut[i] == s[i];
    r
  }

  /** `sanitize_filename(title, max_length)`: a prefix of the cleaned title,
      with only safe characters, within the limit, and not ending in a space
      or a dot; it stops short of the cut only where the cleaned title has
      spaces and dots. */
  function SanitizeFilename(title: string, maxLength: int, category: char -> Category): (r: string)
    ensures forall i :: 0 <= i < |r| ==> Safe(r[i], category)
    ensures maxLength >= 0 ==> |r| <= maxLength
    ensures r == [] || !TrailingJunk(r[|r| - 1])
    ensures r <= Cleaned(title, category)
    ensures var cleaned := Cleaned(title, category);
      var n := SliceLength(|RStripBy(cleaned, TrailingJunk)|, maxLength);
      |r| <= n && forall i :: |r| <= i < n ==> TrailingJunk(cleaned[i])
  {
    TrimCut(Cleaned(title, category), maxLength)
  }

  /** A name is left as it is exactly when it is already safe: only safe
      characters, no trailing space or dot, and no longer than the limit. */
  lemma SanitizeFixpoints(title: string, maxLength: nat, category: char -> Category)
    ensures SanitizeFilename(title, maxLength, category) == title <==>
      && (forall i :: 0 <= i < |title| ==> Safe(title[i], category))
      && (title == [] || !TrailingJunk(title[|title| - 1]))
      && |title| <= maxLength
  {
    if && (forall i :: 0 <= i < |title| ==> Safe(title[i], category))
       && (title == [] || !TrailingJunk(title[|title| - 1]))
       && |title| <= maxLength
    {
      var replaced := ReplaceReserved(title);
      assert replaced == title;
      FilterKeepsAll(title, c => !IsOther(c, category));
      FilterKeepsAll(title, c => !IsOtherSymbol(c, category));
      assert Cleaned(title, category) == title;
      TrimCutKeeps(title, maxLength);
    }
  }

  /** A text within the limit that does not end in a space or a dot is kept whole. */
  lemma TrimCutKeeps(s: string, maxLength: nat)
    requires s == [] || !TrailingJunk(s[|s| - 1])
    requires |s| <= maxLength
    ensures TrimCut(s, maxLength) == s
  {
    assert RStripBy(s, TrailingJunk) == s;
    assert s[..|s|] == s;
  }

  lemma SanitizeIdempotent(title: string, maxLength: nat, category: char -> Category)
    ensures var once := SanitizeFilename(title, maxLength, category);
      SanitizeFilename(once, maxLength, category) == once
  {
    SanitizeFixpoints(SanitizeFilename(title, maxLength, category), maxLength, category);
  }

  // ---- rename_list ----

  /** The zero-padding width for a list of `n` images. */
  function Width(n: nat): nat {
    if n < 10 then 1 else if n < 100 then 2 else 3
  }

  function Zeros(k: nat): (r: string)
    ensures |r| == k && AllDigits(r)
  {
    seq(k, i => '0')
  }

  /** `f"{k:0{w}d}"`: the decimal digits of `k`, left-padded with zeros to
      `w` characters; a number with more digits is not cut. */
  function Pad(k: nat, w: nat): (r: string)
    ensures |r| == if |Dec(k)| < w then w else |Dec(k)|
  {
    var d := Dec(k);
    if |d| < w then Zeros(w - |d|) + d else d
  }

  lemma PadDigits(k: nat, w: nat)
    ensures AllDigits(Pad(k, w))
  {
    var d := Dec(k);
    if |d| < w {
      var z := Zeros(w - |d|);
      assert forall i :: 0 <= i < |z + d| ==> (z + d)[i] == if i < |z| then z[i] else d[i - |z|];
    }
  }

  /** Entry `k` (from 1) of a list of `n` images, renamed keeping the text
      after the last `.` of its old name. */
  function RenamedName(k: nat, n: nat, name: string): string {
    Pad(k, Width(n)) + "." + LastSegment(name, '.')
  }

  /** Entry `k` of `n`, with its URL kept and its name replaced. */
  function RenamedEntry(k: nat, n: nat, a: Attachment): Attachment {
    Attachment(a.url, RenamedName(k, n, a.name))
  }

  /** The list `rename_list` leaves behind. */
  function Renamed(s: seq<Attachment>): seq<Attachment> {
    seq(|s|, i requires 0 <= i < |s| => RenamedEntry(i + 1, |s|, s[i]))
  }

  lemma {:induction false} ZerosValue(k: nat)
    ensures DigitsValue(Zeros(k)) == 0
  {
    if k > 0 {
      assert Zeros(k)[..k - 1] == Zeros(k - 1);
      ZerosValue(k - 1);
    }
  }

  /** Leading zeros do not change the value of a digit string. */
  lemma {:induction false} LeadingZerosValue(k: nat, d: string)
    requires AllDigits(d)
    ensures DigitsValue(Zeros(k) + d) == DigitsValue(d)
  {
    if d == [] {
      assert Zeros(k) + d == Zeros(k);
      ZerosValue(k);
    } else {
      var n := |d| - 1;
      assert (Zeros(k) + d)[..k + n] == Zeros(k) + d[..n];
      LeadingZerosValue(k, d[..n]);
    }
  }

  /** The padded number reads back as the number. */
  lemma PadValue(k: nat, w: nat)
    ensures AllDigits(Pad(k, w)) && DigitsValue(Pad(k, w)) == k
  {
    PadDigits(k, w);
    DecValue(k);
    if |Dec(k)| < w {
      LeadingZerosValue(w - |Dec(k)|, Dec(k));
    }
  }

  /** How many digits `str(k)` has, up to three. */
  lemma {:induction false} DecLength(k: nat)
    ensures k < 10 ==> |Dec(k)| == 1
    ensures 10 <= k < 100 ==> |Dec(k)| == 2
    ensures 100 <= k < 1000 ==> |Dec(k)| == 3
    ensures 1000 <= k ==> |Dec(k)| > 3
  {
    if k >= 10 {
      DecLength(k / 10);
    }
  }

  /** A new name splits back at its first and last `.` into the padded
      number and the old extension. */
  lemma RenamedNameParts(k: nat, n: nat, name: string)
    ensures FirstSegment(RenamedName(k, n, name), '.') == Pad(k, Width(n))
    ensures LastSegment(RenamedName(k, n, name), '.') == LastSegment(name, '.')
  {
    var p, t := Pad(k, Width(n)), LastSegment(name, '.');
    assert RenamedName(k, n, name) == p + ['.'] + t;
    assert '.' !in p by {
      PadDigits(k, Width(n));
      assert AllDigits(p);
    }
    FirstSegmentBefore(p, '.', t);
    LastSegmentAfter(p, '.', t);
  }

  lemma RenamedAt(s: seq<Attachment>, i: nat)
    requires i < |s|
    ensures Renamed(s)[i] == RenamedEntry(i + 1, |s|, s[i])
  {
  }

  /** Two different numbers give two different names, whatever the old
      names were: the texts before the first `.` differ. */
  lemma RenamedNameInjective(k1: nat, k2: nat, n: nat, name1: string, name2: string)
    requires k1 != k2
    ensures RenamedName(k1, n, name1) != RenamedName(k2, n, name2)
  {
    var w := Width(n);
    PadValue(k1, w);
    PadValue(k2, w);
    RenamedNameParts(k1, n, name1);
    RenamedNameParts(k2, n, name2);
  }

  /** The new names are pairwise distinct, whatever the old ones were. */
  lemma RenamedNamesDistinct(s: seq<Attachment>, i: nat, j: nat)
    requires i < |s| && j < |s| && i != j
    ensures Renamed(s)[i].name != Renamed(s)[j].name
  {
    RenamedAt(s, i);
    RenamedAt(s, j);
    RenamedNameInjective(i + 1, j + 1, |s|, s[i].name, s[j].name);
  }

  /** Renaming keeps the URL, the order and the extension of every entry. */
  lemma RenamedKeepsExtension(s: seq<Attachment>, i: nat)
    requires i < |s|
    ensures |Renamed(s)| == |s| && Renamed(s)[i].url == s[i].url
    ensures LastSegment(Renamed(s)[i].name, '.') == LastSegment(s[i].name, '.')
  {
    RenamedAt(s, i);
    RenamedNameParts(i + 1, |s|, s[i].name);
  }

  /** With fewer than a thousand images every number has the same width,
      1, 2 or 3 digits as the count needs, so names sort in list order. */
  lemma RenamedWidthUniform(s: seq<Attachment>, i: nat)
    requires i < |s| < 1000
    ensures |Pad(i + 1, Width(|s|))| == Width(|s|)
    ensures |s| < 10 ==> Width(|s|) == 1
    ensures 10 <= |s| < 100 ==> Width(|s|) == 2
    ensures 100 <= |s| ==> Width(|s|) == 3
  {
    DecLength(i + 1);
  }

  /** `rename_list(previews)`: renames every entry in place and returns the
      same list. */
  method RenameList(previews: array<Attachment>) returns (r: array<Attachment>)
    modifies previews
    ensures r == previews
    ensures previews[..] == Renamed(old(previews[..]))
  {
    ghost var before := previews[..];
    var total := previews.Length;
    var digits := if total < 10 then 1 else if total < 100 then 2 else 3;
    var i := 0;
    while i < total
      invariant 0 <= i <= total
      invariant forall k :: 0 <= k < i ==> previews[k] == RenamedEntry(k + 1, total, before[k])
      invariant forall k :: i <= k < total ==> previews[k] == before[k]
    {
      var extension := LastSegment(previews[i].name, '.');
      var newName := Pad(i + 1, digits) + "." + extension;
      previews[i] := previews[i].(name := newName);
      i := i + 1;
    }
    forall k | 0 <= k < total
      ensures previews[..][k] == Renamed(before)[k]
    {
      RenamedAt(before, k);
    }
    return previews;
  }
}
