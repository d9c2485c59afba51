/** The producer side: how one post of the post API becomes the record the
    downloader consumes. Attachments without a name or a path are dropped,
    the others are sorted by extension into pictures and other files, the
    pictures are renumbered, and the folder title is the sanitized title with
    the publication day optionally in front or behind. */
module Kemono {
  import opened Wrappers
  import opened PyStrings
  import opened Records
  import opened FileNames
  import opened Materialize
  import ExternalLinks

  /** An attachment object of the post API, by its string-valued keys. */
  type RawAttachment = map<string, string>

  /** `att.get(key, "")`. */
  function Field(att: RawAttachment, key: string): string {
    if key in att then att[key] else ""
  }

  /** The prefix every attachment `path` is appended to. */
  const BaseUrl: string := "https://kemono.cr/data"

  /** The extensions the producer files under `images`. */
  const PictureExtensions: seq<string> := ["jpg", "jpeg", "png", "gif", "webp"]

  /** An attachment is kept only when both its name and its path are non-empty. */
  predicate Usable(att: RawAttachment) {
    Field(att, "name") != "" && Field(att, "path") != ""
  }

  /** `name.lower().split('.')[-1]` is one of the picture extensions. */
  predicate IsPicture(name: string) {
    LastSegment(Lower(name), '.') in PictureExtensions
  }

  /** The `{"url": base_url + path, "name": name}` entry of a kept attachment. */
  function Entry(att: RawAttachment): Attachment {
    Attachment(BaseUrl + Field(att, "path"), Field(att, "name"))
  }

  /** The two lists the classification loop fills. */
  datatype Sorted = Sorted(images: seq<Attachment>, files: seq<Attachment>)

  /** The list a kept attachment goes to: `images` for pictures, `files`
      otherwise. */
  function Bin(r: Sorted, pictures: bool): seq<Attachment> {
    if pictures then r.images else r.files
  }

  /** The attachment is kept and lands in the list `pictures` selects. */
  predicate Lands(att: RawAttachment, pictures: bool) {
    Usable(att) && IsPicture(Field(att, "name")) == pictures
  }

  /** `image_raw` and `other_files` after the loop over `attachments`: kept
      attachments are appended, in order, to the list their extension picks. */
  function Classified(atts: seq<RawAttachment>): (r: Sorted)
    ensures |r.images| + |r.files| <= |atts|
  {
    if atts == [] then Sorted([], [])
    else
      var before := Classified(atts[..|atts| - 1]);
      var att := atts[|atts| - 1];
      if !Usable(att) then before
      else if IsPicture(Field(att, "name")) then Sorted(before.images + [Entry(att)], before.files)
      else Sorted(before.images, before.files + [Entry(att)])
  }

  /** Classifying a concatenation classifies each part and concatenates the
      results: the relative order of attachments is kept in both lists. */
  lemma {:induction false} ClassifiedAppend(a: seq<RawAttachment>, b: seq<RawAttachment>)
    ensures Classified(a + b) ==
      Sorted(Classified(a).images + Classified(b).images, Classified(a).files + Classified(b).files)
    decreases |b|
  {
    if b == [] {
      assert a + b == a;
    } else {
      var n := |b| - 1;
      assert (a + b)[..|a + b| - 1] == a + b[..n];
      assert (a + b)[|a + b| - 1] == b[n];
      ClassifiedAppend(a, b[..n]);
    }
  }

  /** An entry is in a list exactly when some kept attachment of the input
      lands in that list and produces it. */
  lemma {:induction false} ClassifiedMembers(atts: seq<RawAttachment>, pictures: bool, x: Attachment)
    ensures x in Bin(Classified(atts), pictures) <==>
      exists i :: 0 <= i < |atts| && Lands(atts[i], pictures) && Entry(atts[i]) == x
  {
    if atts != [] {
      var n := |atts| - 1;
      var init, last := atts[..n], atts[n];
      ClassifiedMembers(init, pictures, x);
      BinSnoc(atts, pictures);
      LandsSnoc(atts, pictures, x);
      var extra := if Lands(last, pictures) then [Entry(last)] else [];
      assert x in extra <==> Lands(last, pictures) && Entry(last) == x;
    }
  }

  /** Some attachment of a non-empty list lands and produces `x` exactly
      when one of all but the last does, or the last does. */
  lemma LandsSnoc(atts: seq<RawAttachment>, pictures: bool, x: Attachment)
    requires atts != []
    ensures var n := |atts| - 1;
      (exists i :: 0 <= i < |atts| && Lands(atts[i], pictures) && Entry(atts[i]) == x) <==>
        (|| (exists i :: 0 <= i < n && Lands(atts[..n][i], pictures) && Entry(atts[..n][i]) == x)
         || (Lands(atts[n], pictures) && Entry(atts[n]) == x))
  {
    var n := |atts| - 1;
    var init := atts[..n];
    if exists i :: 0 <= i < |atts| && Lands(atts[i], pictures) && Entry(atts[i]) == x {
      var i :| 0 <= i < |atts| && Lands(atts[i], pictures) && Entry(atts[i]) == x;
      if i < n {
        assert init[i] == atts[i];
      }
    }
    if exists i :: 0 <= i < n && Lands(init[i], pictures) && Entry(init[i]) == x {
      var i :| 0 <= i < n && Lands(init[i], pictures) && Entry(init[i]) == x;
      assert atts[i] == init[i];
    }
  }

  /** The last attachment adds its entry to the end of the list it lands in,
      and to no other. */
  lemma BinSnoc(atts: seq<RawAttachment>, pictures: bool)
    requires atts != []
    ensures var last := atts[|atts| - 1];
      Bin(Classified(atts), pictures) ==
        Bin(Classified(atts[..|atts| - 1]), pictures) + (if Lands(last, pictures) then [Entry(last)] else [])
  {
  }

  /** Every entry of `images` has a picture name and every entry of `files`
      does not; all have a non-empty name and a URL under the data prefix. */
  lemma {:induction false} ClassifiedSorts(atts: seq<RawAttachment>, pictures: bool)
    ensures forall i :: 0 <= i < |Bin(Classified(atts), pictures)| ==>
      var e := Bin(Classified(atts), pictures)[i];
      IsPicture(e.name) == pictures && e.name != "" && BaseUrl < e.url
  {
    forall i | 0 <= i < |Bin(Classified(atts), pictures)|
      ensures var e := Bin(Classified(atts), pictures)[i];
        IsPicture(e.name) == pictures && e.name != "" && BaseUrl < e.url
    {
      var e := Bin(Classified(atts), pictures)[i];
      ClassifiedMembers(atts, pictures, e);
      var j :| 0 <= j < |atts| && Lands(atts[j], pictures) && Entry(atts[j]) == e;
    }
  }

  /** The classification loop of `extract_attachments_urls` and
      `extract_attachments_urls_streamed`. */
  method ClassifyAttachments(atts: seq<RawAttachment>) returns (images: seq<Attachment>, files: seq<Attachment>)
    ensures Sorted(images, files) == Classified(atts)
  {
    images, files := [], [];
    for i := 0 to |atts|
      invariant Sorted(images, files) == Classified(atts[..i])
    {
      assert atts[..i + 1][..i] == atts[..i];
      var att := atts[i];
      var name := Field(att, "name");
      var path := Field(att, "path");
      if name == "" || path == "" {
        continue;
      }
      var ext := LastSegment(Lower(name), '.');
      var url := BaseUrl + path;
      if ext in PictureExtensions {
        images := images + [Attachment(url, name)];
      } else {
        files := files + [Attachment(url, name)];
      }
    }
    assert atts[..|atts|] == atts;
  }

  /** `[file] + attachments if file else attachments`: the post's main file,
      when the post has a non-empty one, goes in front. */
  function WithMainFile(file: Option<RawAttachment>, atts: seq<RawAttachment>): seq<RawAttachment> {
    if file.Some? && file.value != map[] then [file.value] + atts else atts
  }

  /** A usable main file comes first in its list, ahead of every attachment;
      without one, or with one lacking `name` or `path`, the attachments are
      classified as they are. */
  lemma MainFileFirst(file: Option<RawAttachment>, atts: seq<RawAttachment>)
    ensures file.None? ==> Classified(WithMainFile(file, atts)) == Classified(atts)
    ensures file.Some? && !Usable(file.value) ==> Classified(WithMainFile(file, atts)) == Classified(atts)
    ensures file.Some? && Usable(file.value) ==>
      var c, rest := Classified(WithMainFile(file, atts)), Classified(atts);
      var pictures := IsPicture(Field(file.value, "name"));
      && Bin(c, pictures) == [Entry(file.value)] + Bin(rest, pictures)
      && Bin(c, !pictures) == Bin(rest, !pictures)
  {
    if file.Some? && Usable(file.value) {
      assert "name" in file.value;
      ClassifiedAppend([file.value], atts);
      ClassifiedOne(file.value);
    } else if file.Some? && file.value != map[] {
      ClassifiedAppend([file.value], atts);
      assert [file.value][..0] == [];
      assert [file.value] + atts == WithMainFile(file, atts);
    }
  }

  /** A single kept attachment lands alone in its list. */
  lemma ClassifiedOne(att: RawAttachment)
    requires Usable(att)
    ensures var pictures := IsPicture(Field(att, "name"));
      && Bin(Classified([att]), pictures) == [Entry(att)]
      && Bin(Classified([att]), !pictures) == []
  {
    assert [att][..0] == [];
  }

  /** `published.split("T")[0]`. */
  function Day(published: string): string {
    FirstSegment(published, 'T')
  }

  /** The day of an ISO timestamp is its date part. */
  lemma DayOfTimestamp(date: string, time: string)
    requires 'T' !in date
    ensures Day(date + "T" + time) == date
  {
    FirstSegmentBefore(date, 'T', time);
  }

  /** The folder title for `day_mode`: 1 puts the day in front, 2 behind,
      anything else leaves the cleaned title alone. */
  function FolderTitle(day: string, cleaned: string, dayMode: int): string {
    if dayMode == 1 then day + "_" + cleaned
    else if dayMode == 2 then cleaned + "_" + day
    else cleaned
  }

  /** The day reads back from the folder title: before its first `_` in
      mode 1, after its last `_` in mode 2 (when neither the day nor, in
      mode 2, the title brings a `_` of its own). */
  lemma FolderTitleDay(day: string, cleaned: string, dayMode: int)
    requires '_' !in day
    ensures dayMode == 1 ==> FirstSegment(FolderTitle(day, cleaned, dayMode), '_') == day
    ensures dayMode == 2 ==> LastSegment(FolderTitle(day, cleaned, dayMode), '_') == day
    ensures dayMode != 1 && dayMode != 2 ==> FolderTitle(day, cleaned, dayMode) == cleaned
  {
    if dayMode == 1 {
      FirstSegmentBefore(day, '_', cleaned);
    } else if dayMode == 2 {
      LastSegmentAfter(cleaned, '_', day);
    }
  }

  /** Two posts from different days never share a dated folder title. */
  lemma FolderTitleSeparatesDays(day1: string, day2: string, cleaned1: string, cleaned2: string, dayMode: int)
    requires '_' !in day1 && '_' !in day2 && day1 != day2
    requires dayMode == 1 || dayMode == 2
    ensures FolderTitle(day1, cleaned1, dayMode) != FolderTitle(day2, cleaned2, dayMode)
  {
    FolderTitleDay(day1, cleaned1, dayMode);
    FolderTitleDay(day2, cleaned2, dayMode);
  }

  /** `extract_external_links(html)`: nothing for a missing or empty body,
      otherwise the links the pattern finds, read as the source writes it.
      The guard for the empty body changes nothing: the scan of an empty
      text finds none. */
  function ExtractExternalLinks(html: Option<string>): (r: seq<string>)
    ensures html.None? ==> r == []
    ensures html.Some? ==> r == ExternalLinks.Links(html.value, ExternalLinks.AsWritten)
  {
    if html.None? || html.value == "" then [] else ExternalLinks.Links(html.value, ExternalLinks.AsWritten)
  }

  /** Every link extracted from a post body is a match of the pattern as
      written in that body: it starts with `http://` or `https://` and ends
      in a character other than a backslash, `s`, a quote or an angle
      bracket. */
  lemma ExtractedLinksMatch(html: string, i: nat)
    requires i < |ExtractExternalLinks(Some(html))|
    ensures var l := ExtractExternalLinks(Some(html))[i];
      && (exists q :: ExternalLinks.MatchedAt(html, q, l, ExternalLinks.AsWritten))
      && (ExternalLinks.At(l, 0, "https://") || ExternalLinks.At(l, 0, "http://"))
      && |l| >= 12 && ExternalLinks.LinkChar(l[|l| - 1], ExternalLinks.AsWritten)
  {
    ExternalLinks.FindAllSound(html, 0, ExternalLinks.AsWritten, i);
    ExternalLinks.LinksShape(html, ExternalLinks.AsWritten, i);
  }

  /** The fields of one listed post that the producer reads. */
  datatype PostMeta = PostMeta(id: PostId, published: string, title: string, user: string, service: string)

  /** The post's page, `https://kemono.cr/{service}/user/{user}/post/{id}`. */
  function PostUrl(meta: PostMeta): string {
    "https://kemono.cr/" + meta.service + "/user/" + meta.user + "/post/" + Str(meta.id)
  }

  /** The record `extract_attachments_urls_streamed` yields for one post
      whose detail request succeeded. */
  function ShapedPost(meta: PostMeta, content: Option<string>, file: Option<RawAttachment>,
                      attachments: seq<RawAttachment>, dayMode: int,
                      category: char -> Category): Post
  {
    var day := Day(meta.published);
    var title := FolderTitle(day, SanitizeFilename(meta.title, DefaultMaxLength, category), dayMode);
    var sorted := Classified(WithMainFile(file, attachments));
    Post(title, PostUrl(meta), meta.id, day, Renamed(sorted.images), sorted.files,
         ExtractExternalLinks(content))
  }

  /** The body of the loop of `extract_attachments_urls_streamed` for one
      post: folder title, classification, renaming of the pictures in place,
      and the link scan. */
  method ShapePost(meta: PostMeta, content: Option<string>, file: Option<RawAttachment>,
                   attachments: seq<RawAttachment>, dayMode: int,
                   category: char -> Category) returns (post: Post)
    ensures post == ShapedPost(meta, content, file, attachments, dayMode, category)
  {
    var day := FirstSegment(meta.published, 'T');
    var cleaned := SanitizeFilename(meta.title, DefaultMaxLength, category);
    var folderTitle := cleaned;
    if dayMode == 1 {
      folderTitle := day + "_" + cleaned;
    } else if dayMode == 2 {
      folderTitle := cleaned + "_" + day;
    }
    var atts := attachments;
    if file.Some? && file.value != map[] {
      atts := [file.value] + attachments;
    }
    var imageRaw, otherFiles := ClassifyAttachments(atts);
    var previews := new Attachment[|imageRaw|](i requires 0 <= i < |imageRaw| => imageRaw[i]);
    assert previews[..] == imageRaw;
    var images := RenameList(previews);
    var links := ExtractExternalLinks(content);
    post := Post(folderTitle, PostUrl(meta), meta.id, day, images[..], otherFiles, links);
  }

  /** The downloader fetches every picture the producer lists whole: renaming
      keeps the extension, and the producer's picture extensions are exactly
      the downloader's. */
  lemma ShapedImagesFetchedWhole(meta: PostMeta, content: Option<string>, file: Option<RawAttachment>,
                                 attachments: seq<RawAttachment>, dayMode: int,
                                 category: char -> Category, i: nat)
    requires i < |ShapedPost(meta, content, file, attachments, dayMode, category).images|
    ensures ImageMode(ShapedPost(meta, content, file, attachments, dayMode, category).images[i].name) == WholeFile
  {
    var raw := Classified(WithMainFile(file, attachments)).images;
    var renamed := Renamed(raw);
    assert i < |raw|;
    ClassifiedSorts(WithMainFile(file, attachments), true);
    assert Bin(Classified(WithMainFile(file, attachments)), true) == raw;
    assert IsPicture(raw[i].name);
    RenamedKeepsExtension(raw, i);
    LowerLastSegment(raw[i].name);
    LowerLastSegment(renamed[i].name);
    ImageModeOfLowered(renamed[i].name);
  }

  /** No two pictures of a post are saved under the same name, and their
      URLs and order are those of the classified list. */
  lemma ShapedImageNamesDistinct(meta: PostMeta, content: Option<string>, file: Option<RawAttachment>,
                                 attachments: seq<RawAttachment>, dayMode: int,
                                 category: char -> Category, i: nat, j: nat)
    requires var images := ShapedPost(meta, content, file, attachments, dayMode, category).images;
      i < |images| && j < |images| && i != j
    ensures var images := ShapedPost(meta, content, file, attachments, dayMode, category).images;
      images[i].name != images[j].name
  {
    var raw := Classified(WithMainFile(file, attachments)).images;
    RenamedNamesDistinct(raw, i, j);
  }

  /** Only pictures are renamed: every entry of `files` keeps the name of a
      kept, non-picture attachment of the post. */
  lemma ShapedFilesKeepNames(meta: PostMeta, content: Option<string>, file: Option<RawAttachment>,
                             attachments: seq<RawAttachment>, dayMode: int,
                             category: char -> Category, x: Attachment)
    requires x in ShapedPost(meta, content, file, attachments, dayMode, category).files
    ensures exists att :: att in WithMainFile(file, attachments) && Lands(att, false) && x == Entry(att)
  {
    var atts := WithMainFile(file, attachments);
    ClassifiedMembers(atts, false, x);
    var i :| 0 <= i < |atts| && Lands(atts[i], false) && Entry(atts[i]) == x;
    assert atts[i] in atts;
  }
}
