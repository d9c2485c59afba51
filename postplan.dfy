/** What saving one post does, as the ordered list of actions it carries out
    once its folder is known: a transfer per `images` entry (whole-file for
    picture extensions, resumable otherwise), then a resumable transfer per
    `files` entry in listed order, then `external_links.txt` when the post
    has links, then the completion callback. `Run` gives the file tree those
    actions leave behind. */
module Materialize {
  import opened Wrappers
  import opened PyStrings
  import opened FileSystem
  import opened Records
  import opened FolderIdentity
  import opened Transfers

  /** The extensions `images` entries are fetched whole for. */
  const ImageExtensions: set<string> := {"jpg", "jpeg", "png", "gif", "webp"}

  const LinksFileName: string := "external_links.txt"

  datatype Mode = WholeFile | Resumable

  /** The transfer an `images` entry gets, from the lower-cased text after
      the last `.` of its name. */
  function ImageMode(name: string): Mode {
    if Lower(LastSegment(name, '.')) in ImageExtensions then WholeFile else Resumable
  }

  /** `rsplit(".", 1)[-1].lower()` in the downloader and `lower().split(".")[-1]`
      in the producer pick the same extension. */
  lemma ImageModeOfLowered(name: string)
    ensures ImageMode(name) == WholeFile <==> LastSegment(Lower(name), '.') in ImageExtensions
  {
    LowerLastSegment(name);
  }

  /** One step of saving a post; `Report` is the call `update_status(id, finished=True)`. */
  datatype Action =
    | Fetch(mode: Mode, url: string, path: string)
    | WriteText(path: string, text: string)
    | Report(id: PostId)

  /** Why saving a post stops with an exception: its folder marker cannot be
      read, or the links file cannot be opened for writing. */
  datatype SaveError = FolderNotUsable(cause: FsError) | LinksNotWritable(path: string)

  function ImageFetch(folder: string, img: Attachment): Action {
    Fetch(ImageMode(img.name), img.url, Join(folder, img.name))
  }

  function FileFetch(folder: string, f: Attachment): Action {
    Fetch(Resumable, f.url, Join(folder, f.name))
  }

  function ImageFetches(folder: string, images: seq<Attachment>): seq<Action> {
    seq(|images|, i requires 0 <= i < |images| => ImageFetch(folder, images[i]))
  }

  function FileFetches(folder: string, files: seq<Attachment>): seq<Action> {
    seq(|files|, i requires 0 <= i < |files| => FileFetch(folder, files[i]))
  }

  /** One more image adds its transfer at the end. */
  lemma ImageFetchesSnoc(dir: string, images: seq<Attachment>, i: nat)
    requires i < |images|
    ensures ImageFetches(dir, images[..i + 1]) == ImageFetches(dir, images[..i]) + [ImageFetch(dir, images[i])]
  {
    var a := ImageFetches(dir, images[..i + 1]);
    var b := ImageFetches(dir, images[..i]) + [ImageFetch(dir, images[i])];
    assert |a| == |b|;
    forall k | 0 <= k < |a|
      ensures a[k] == b[k]
    {
      assert images[..i + 1][k] == images[k];
      if k < i {
        assert images[..i][k] == images[k];
      }
    }
  }

  /** One more file adds its transfer at the end. */
  lemma FileFetchesSnoc(dir: string, files: seq<Attachment>, j: nat)
    requires j < |files|
    ensures FileFetches(dir, files[..j + 1]) == FileFetches(dir, files[..j]) + [FileFetch(dir, files[j])]
  {
    var a := FileFetches(dir, files[..j + 1]);
    var b := FileFetches(dir, files[..j]) + [FileFetch(dir, files[j])];
    assert |a| == |b|;
    forall k | 0 <= k < |a|
      ensures a[k] == b[k]
    {
      assert files[..j + 1][k] == files[k];
      if k < j {
        assert files[..j][k] == files[k];
      }
    }
  }

  function LinksWrite(post: Post, folder: string): seq<Action> {
    if post.externalLinks != [] then [WriteText(Join(folder, LinksFileName), JoinLines(post.externalLinks))] else []
  }

  function Reports(post: Post, reporting: bool): seq<Action> {
    if reporting then [Report(post.id)] else []
  }

  /** `save_post_concurrent(post, base_path, ...)` once the folder is
      resolved: the actions in the order they happen; `reporting` says
      whether an `update_status` callback was given. */
  function PostPlan(post: Post, folder: string, reporting: bool): seq<Action> {
    ImageFetches(folder, post.images) + FileFetches(folder, post.files)
    + LinksWrite(post, folder) + Reports(post, reporting)
  }

  /** The plan begins with one transfer per `images` entry, in order, into
      the post's folder; whole-file exactly for picture extensions. */
  lemma PlanFetchesImages(post: Post, folder: string, reporting: bool)
    ensures var plan := PostPlan(post, folder, reporting);
      && |plan| >= |post.images|
      && forall i :: 0 <= i < |post.images| ==>
           (&& plan[i].Fetch? && plan[i].url == post.images[i].url
            && plan[i].path == Join(folder, post.images[i].name)
            && (plan[i].mode == WholeFile <==> LastSegment(Lower(post.images[i].name), '.') in ImageExtensions))
  {
    var images := ImageFetches(folder, post.images);
    var rest := FileFetches(folder, post.files) + LinksWrite(post, folder) + Reports(post, reporting);
    assert PostPlan(post, folder, reporting) == images + rest;
    forall i | 0 <= i < |post.images| {
      ImageModeOfLowered(post.images[i].name);
    }
  }

  /** Then one resumable transfer per `files` entry, in listed order. */
  lemma PlanFetchesFiles(post: Post, folder: string, reporting: bool)
    ensures var plan := PostPlan(post, folder, reporting);
      var n := |post.images|;
      && |plan| >= n + |post.files|
      && forall j :: 0 <= j < |post.files| ==>
           plan[n + j] == Fetch(Resumable, post.files[j].url, Join(folder, post.files[j].name))
  {
    var before := ImageFetches(folder, post.images);
    var files := FileFetches(folder, post.files);
    var after := LinksWrite(post, folder) + Reports(post, reporting);
    assert PostPlan(post, folder, reporting) == before + files + after;
  }

  /** After all transfers, the links file is written, and only when the post
      has links; the callback with the post's id comes last, and only when
      one was given. */
  lemma PlanEnds(post: Post, folder: string, reporting: bool)
    ensures var plan := PostPlan(post, folder, reporting);
      var t := |post.images| + |post.files|;
      && |plan| == t + (if post.externalLinks != [] then 1 else 0) + (if reporting then 1 else 0)
      && (forall i :: 0 <= i < |plan| && plan[i].WriteText? ==>
            (&& post.externalLinks != [] && i == t
             && plan[i] == WriteText(Join(folder, LinksFileName), JoinLines(post.externalLinks))))
      && (post.externalLinks != [] ==> plan[t].WriteText?)
      && (forall i :: 0 <= i < |plan| && plan[i].Report? ==> reporting && i == |plan| - 1 && plan[i].id == post.id)
      && (reporting ==> plan[|plan| - 1] == Report(post.id))
  {
    var transfers := ImageFetches(folder, post.images) + FileFetches(folder, post.files);
    var links, reports := LinksWrite(post, folder), Reports(post, reporting);
    var plan := PostPlan(post, folder, reporting);
    assert plan == transfers + links + reports;
    assert forall i :: 0 <= i < |transfers| ==> plan[i] == transfers[i] && plan[i].Fetch?;
    assert forall i :: 0 <= i < |links| ==> plan[|transfers| + i] == links[i];
    assert forall i :: 0 <= i < |reports| ==> plan[|transfers| + |links| + i] == reports[i];
  }

  /** The paths an action may change. */
  function Targets(a: Action): set<string> {
    match a
    case Fetch(_, _, path) => {path, TempPath(path)}
    case WriteText(path, _) => {path}
    case Report(_) => {}
  }

  /** Carrying out one action. Transfers never fail as far as the caller
      can see: each catches its own exceptions. Opening the links file
      raises when a directory is in the way. */
  function Step(fs: FileTree, a: Action, server: Server): (r: Result<FileTree, SaveError>)
    ensures r.Err? <==> a.WriteText? && a.path in fs && fs[a.path].Dir?
    ensures r.Ok? ==> forall p :: p !in Targets(a) ==> (p in r.value <==> p in fs) && (p in fs ==> r.value[p] == fs[p])
    ensures r.Ok? && a.WriteText? ==> a.path in r.value && r.value[a.path] == Text(a.text)
  {
    match a
    case Fetch(WholeFile, url, path) => Ok(ImageEffect(fs, url, path, server))
    case Fetch(Resumable, url, path) => Ok(ResumeEffect(fs, url, path, server))
    case WriteText(path, text) => if path in fs && fs[path].Dir? then Err(LinksNotWritable(path)) else Ok(fs[path := Text(text)])
    case Report(_) => Ok(fs)
  }

  /** The actions in order, stopping at the first that raises: the tree
      left behind, and the exception if there was one. */
  function Run(fs: FileTree, plan: seq<Action>, server: Server): (FileTree, Option<SaveError>)
    decreases |plan|
  {
    if plan == [] then (fs, None)
    else match Step(fs, plan[0], server)
      case Err(e) => (fs, Some(e))
      case Ok(next) => Run(next, plan[1..], server)
  }

  /** Running two lists one after the other is running their concatenation. */
  lemma {:induction false} RunAppend(fs: FileTree, a: seq<Action>, b: seq<Action>, server: Server)
    ensures Run(fs, a + b, server) ==
      (var (mid, err) := Run(fs, a, server); if err.None? then Run(mid, b, server) else (mid, err))
    decreases |a|
  {
    if a != [] {
      assert (a + b)[0] == a[0] && (a + b)[1..] == a[1..] + b;
      match Step(fs, a[0], server)
      case Err(_) =>
      case Ok(next) =>
        assert Run(fs, a + b, server) == Run(next, a[1..] + b, server);
        assert Run(fs, a, server) == Run(next, a[1..], server);
        RunAppend(next, a[1..], b, server);
    } else {
      assert a + b == b;
    }
  }

  /** Running one more action after a list. */
  lemma RunSnoc(fs: FileTree, done: seq<Action>, a: Action, server: Server)
    requires Run(fs, done, server).1 == None
    ensures var mid := Run(fs, done, server).0;
      Run(fs, done + [a], server) ==
        match Step(mid, a, server)
        case Err(e) => (mid, Some(e))
        case Ok(next) => (next, None)
  {
    RunAppend(fs, done, [a], server);
    var mid := Run(fs, done, server).0;
    match Step(mid, a, server)
    case Err(_) =>
    case Ok(next) =>
      assert Run(mid, [a], server) == Run(next, [], server);
  }

  /** A plan runs as its stages one after the other: image transfers,
      file transfers, the links file, then the callback, which changes
      nothing on disk. */
  lemma RunInStages(
    resolved: FileTree, afterImages: FileTree, afterFiles: FileTree, final: FileTree, failure: Option<SaveError>,
    post: Post, dir: string, reporting: bool, server: Server)
    requires Run(resolved, ImageFetches(dir, post.images), server) == (afterImages, None)
    requires Run(afterImages, FileFetches(dir, post.files), server) == (afterFiles, None)
    requires Run(afterFiles, LinksWrite(post, dir), server) == (final, failure)
    ensures Run(resolved, PostPlan(post, dir, reporting), server) == (final, failure)
  {
    var images, files := ImageFetches(dir, post.images), FileFetches(dir, post.files);
    var links, reports := LinksWrite(post, dir), Reports(post, reporting);
    RunLinksThenCallback(afterFiles, final, failure, post, dir, reporting, server);
    RunAfterClean(afterImages, files, links + reports, afterFiles, (final, failure), server);
    RunAfterClean(resolved, images, files + (links + reports), afterImages, (final, failure), server);
    PlanInStages(post, dir, reporting);
  }

  /** The plan is its four stages, grouped from the right. */
  lemma PlanInStages(post: Post, dir: string, reporting: bool)
    ensures PostPlan(post, dir, reporting) ==
      ImageFetches(dir, post.images) + (FileFetches(dir, post.files) + (LinksWrite(post, dir) + Reports(post, reporting)))
  {
    var images, files := ImageFetches(dir, post.images), FileFetches(dir, post.files);
    var links, reports := LinksWrite(post, dir), Reports(post, reporting);
    assert images + files + links + reports == images + (files + (links + reports));
  }

  /** When a list runs to its end, what follows it runs from where it left
      the tree. */
  lemma RunAfterClean(fs: FileTree, a: seq<Action>, b: seq<Action>, mid: FileTree, out: (FileTree, Option<SaveError>), server: Server)
    requires Run(fs, a, server) == (mid, None)
    requires Run(mid, b, server) == out
    ensures Run(fs, a + b, server) == out
  {
    RunAppend(fs, a, b, server);
  }

  /** The callback changes nothing on disk and cannot raise. */
  lemma CallbackChangesNothing(fs: FileTree, post: Post, reporting: bool, server: Server)
    ensures Run(fs, Reports(post, reporting), server) == (fs, None)
  {
    if reporting {
      assert Reports(post, reporting)[1..] == [];
    }
  }

  /** The links file, then the callback: the callback adds nothing to what
      the links write leaves. */
  lemma RunLinksThenCallback(fs: FileTree, final: FileTree, failure: Option<SaveError>, post: Post, dir: string, reporting: bool, server: Server)
    requires Run(fs, LinksWrite(post, dir), server) == (final, failure)
    ensures Run(fs, LinksWrite(post, dir) + Reports(post, reporting), server) == (final, failure)
  {
    RunAppend(fs, LinksWrite(post, dir), Reports(post, reporting), server);
    CallbackChangesNothing(final, post, reporting, server);
  }

  /** Nothing but the targets of the actions changes. */
  lemma {:induction false} RunFrame(fs: FileTree, plan: seq<Action>, server: Server, p: string)
    requires forall i :: 0 <= i < |plan| ==> p !in Targets(plan[i])
    ensures var after := Run(fs, plan, server).0;
      (p in after <==> p in fs) && (p in fs ==> after[p] == fs[p])
    decreases |plan|
  {
    if plan != [] {
      match Step(fs, plan[0], server)
      case Err(_) =>
      case Ok(next) => RunFrame(next, plan[1..], server, p);
    }
  }

  /** Only a text write can raise: a list without one always runs to the end. */
  lemma {:induction false} RunWithoutTextCompletes(fs: FileTree, plan: seq<Action>, server: Server)
    requires forall i :: 0 <= i < |plan| ==> !plan[i].WriteText?
    ensures Run(fs, plan, server).1 == None
    decreases |plan|
  {
    if plan != [] {
      RunWithoutTextCompletes(Step(fs, plan[0], server).value, plan[1..], server);
    }
  }

  /** A post without links is always reported finished when a callback is
      given, whatever every transfer's outcome: failed transfers do not stop
      the completion callback. */
  lemma NoLinksAlwaysReports(fs: FileTree, post: Post, folder: string, reporting: bool, server: Server)
    requires post.externalLinks == []
    ensures var plan := PostPlan(post, folder, reporting);
      && Run(fs, plan, server).1 == None
      && (reporting ==> Report(post.id) in plan)
  {
    var plan := PostPlan(post, folder, reporting);
    RunWithoutTextCompletes(fs, plan, server);
  }

  /** The last two steps: writing the links file, then the callback. */
  lemma RunLinksThenReport(mid: FileTree, post: Post, folder: string, reporting: bool, server: Server)
    requires post.externalLinks != []
    ensures var links := Join(folder, LinksFileName);
      var (after, err) := Run(mid, LinksWrite(post, folder) + Reports(post, reporting), server);
      && (err.Some? <==> links in mid && mid[links].Dir?)
      && (err.Some? ==> err.value == LinksNotWritable(links) && after == mid)
      && (err.None? ==> after == mid[links := Text(JoinLines(post.externalLinks))])
  {
    var links := Join(folder, LinksFileName);
    var write := WriteText(links, JoinLines(post.externalLinks));
    var tail := LinksWrite(post, folder) + Reports(post, reporting);
    assert tail[0] == write && tail[1..] == Reports(post, reporting);
    if !(links in mid && mid[links].Dir?) {
      var next := mid[links := Text(JoinLines(post.externalLinks))];
      assert Step(mid, write, server) == Ok(next);
      if reporting {
        assert Run(next, [Report(post.id)], server) == Run(next, [], server);
      }
    }
  }

  /** Saving a post with links stops with an exception exactly when a
      directory sits where `external_links.txt` goes once the transfers are
      done; otherwise the file holds the links, one per line, at the end. */
  lemma LinksFileOutcome(fs: FileTree, post: Post, folder: string, reporting: bool, server: Server)
    requires post.externalLinks != []
    ensures var transfers := ImageFetches(folder, post.images) + FileFetches(folder, post.files);
      var mid := Run(fs, transfers, server).0;
      var links := Join(folder, LinksFileName);
      var (after, err) := Run(fs, PostPlan(post, folder, reporting), server);
      && (err.Some? <==> links in mid && mid[links].Dir?)
      && (err.Some? ==> err.value == LinksNotWritable(links) && after == mid)
      && (err.None? ==> links in after && after[links] == Text(JoinLines(post.externalLinks)))
  {
    var transfers := ImageFetches(folder, post.images) + FileFetches(folder, post.files);
    var tail := LinksWrite(post, folder) + Reports(post, reporting);
    assert PostPlan(post, folder, reporting) == transfers + tail;
    assert forall i :: 0 <= i < |transfers| ==> transfers[i].Fetch?;
    RunWithoutTextCompletes(fs, transfers, server);
    var mid := Run(fs, transfers, server).0;
    assert Run(fs, transfers, server) == (mid, None);
    RunAppend(fs, transfers, tail, server);
    assert Run(fs, PostPlan(post, folder, reporting), server) == Run(mid, tail, server);
    RunLinksThenReport(mid, post, folder, reporting, server);
  }
}
