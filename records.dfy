/** The post record the producer hands to the downloader and the values it
    is made of. */
module Records {
  import opened PyStrings

  /** A post identifier as JSON delivers it: a number or a string. */
  datatype PostId = NumId(n: int) | TextId(s: string)

  /** Python's `str(post_id)`, the form used for the `.post_id` marker and
      the ledger keys. */
  function Str(id: PostId): string {
    match id
    case NumId(n) => IntStr(n)
    case TextId(s) => s
  }

  /** `str(post_id)` has no whitespace at either end, so a marker holding it
      reads back equal to it after `strip()` (`StripTrimmed`). */
  predicate Canonical(id: PostId) {
    var s := Str(id);
    s == [] || (!IsSpace(s[0]) && !IsSpace(s[|s| - 1]))
  }

  /** Numeric identifiers are always canonical, and read back from their
      marker. */
  lemma NumIdCanonical(n: int)
    ensures Canonical(NumId(n))
    ensures Strip(Str(NumId(n))) == Str(NumId(n))
  {
    var s := IntStr(n);
    assert s[0] == '-' || IsDigit(s[0]);
    assert IsDigit(s[|s| - 1]);
    StripTrimmed(s);
  }

  /** One downloadable file: where it comes from and the file name it is
      saved under inside the post's folder. */
  datatype Attachment = Attachment(url: string, name: string)

  /** One post as the producer yields it. */
  datatype Post = Post(
    title: string,
    url: string,
    id: PostId,
    day: string,
    images: seq<Attachment>,
    files: seq<Attachment>,
    externalLinks: seq<string>)
}
