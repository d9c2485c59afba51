/** The downloader's steps as they run against the local disk: a `Disk`
    holds the file tree, and each method updates it in place the way the
    corresponding Python function does. Every method is proved to leave the
    tree exactly as the specification functions of `FolderIdentity`,
    `Transfers` and `Materialize` say. */
module Downloader {
  import opened Wrappers
  import opened PyStrings
  import opened FileSystem
  import opened Records
  import opened FolderIdentity
  import opened Transfers
  import opened Materialize

  /** The `download_tasks` list of `save_post_concurrent`: one transfer per
      image, whole-file when the lower-cased text after the last `.` is a
      picture extension, resumable otherwise. */
  method ImageTasks(dir: string, images: seq<Attachment>) returns (tasks: seq<Action>)
    ensures tasks == ImageFetches(dir, images)
  {
    tasks := [];
    var i := 0;
    while i < |images|
      invariant 0 <= i <= |images|
      invariant tasks == ImageFetches(dir, images[..i])
    {
      var img := images[i];
      var path := Join(dir, img.name);
      var ext := Lower(LastSegment(img.name, '.'));
      var action := if ext in ImageExtensions then Fetch(WholeFile, img.url, path) else Fetch(Resumable, img.url, path);
      assert action == ImageFetch(dir, img);
      ImageFetchesSnoc(dir, images, i);
      tasks := tasks + [action];
      i := i + 1;
    }
    assert images[..i] == images;
  }

  class Disk {
    var fs: FileTree

    constructor(initial: FileTree)
      ensures fs == initial
    {
      fs := initial;
    }

    /** One iteration's tests in `get_unique_folder`: whether the folder
        exists, whether its `.post_id` marker does, and whether the marker's
        stripped text is `str(post_id)`. A folder that does not exist is
        `Blocked` when `os.makedirs` would raise on it. */
    method ProbeFolder(folder: string, id: PostId) returns (p: Probe)
      ensures p == ProbeAt(fs, folder, id)
    {
      var marker := MarkerPath(folder);
      ProbeSteps(fs, folder, id);
      if !PathExists(fs, folder) {
        p := if folder != [] && Unslashed(folder) !in fs then Vacant else Blocked;
      } else if marker !in fs {
        p := Foreign;
      } else if !fs[marker].Text? {
        p := Unreadable;
      } else if Strip(fs[marker].text) == Str(id) {
        p := Owned;
      } else {
        p := Foreign;
      }
    }

    /** `get_unique_folder(base_path, title, post_id)`: tries `title`,
        `title-2`, `title-3`, ... until one is absent (created, with its
        marker) or carries this post's id. The ghost `k` is the candidate the
        loop left at. */
    method GetUniqueFolder(base: string, title: string, id: PostId) returns (r: Result<string, FsError>, ghost k: nat)
      modifies this
      ensures FirstStop(old(fs), base, title, id, k)
      ensures (r, fs) == ResolveAt(old(fs), base, title, id, k)
    {
      var count := 1;
      var probe := Vacant;
      while true
        invariant count >= 1 && fs == old(fs)
        invariant Passed(fs, base, title, id, count)
        decreases |fs.Keys - Tried(base, title, count)|
      {
        probe := ProbeFolder(CandidatePath(base, title, count), id);
        if probe != Foreign {
          break;
        }
        TriedShrinks(fs, base, title, id, count);
        PassedOneMore(fs, base, title, id, count);
        count := count + 1;
      }
      k := count;
      var folder := CandidatePath(base, title, count);
      var marker := MarkerPath(folder);
      match probe
      case Vacant =>
        fs := fs[Unslashed(folder) := Dir][marker := Text(Str(id))];
        r := Ok(folder);
      case Blocked =>
        r := Err(NotCreatable(folder));
      case Owned =>
        r := Ok(folder);
      case Unreadable =>
        r := Err(UnreadableMarker(marker));
    }

    /** `download_image(session, url, save_path, sem)`. */
    method DownloadImage(url: string, dest: string, server: Server)
      modifies this
      ensures fs == ImageEffect(old(fs), url, dest, server)
    {
      var temp := TempPath(dest);
      var reply := server(url, map[]);
      if !(reply.Reply? && reply.status == 200) {
        return;
      }
      if temp in fs && fs[temp].Dir? {
        return;
      }
      fs := fs[temp := File([])];
      if !reply.complete {
        return;
      }
      fs := fs[temp := File(Concat(reply.chunks))];
      fs := Replace(fs, temp, dest);
    }

    /** `download_with_resume(session, url, save_path, sem)`: the Range
        request, the append or overwrite, the chunk loop and the commit rule.
        The old bytes are kept whenever there are some and the status is 200
        or 206, as the source does. */
    method DownloadWithResume(url: string, dest: string, server: Server)
      modifies this
      ensures fs == ResumeEffect(old(fs), url, dest, server)
    {
      var temp := TempPath(dest);
      var size := 0;
      if temp in fs && fs[temp].File? {
        size := |fs[temp].bytes|;
      }
      var reply := server(url, RangeHeaders(size));
      if !Accepted(reply) || !Writable(fs, temp) {
        return;
      }
      var start: seq<byte> := if size != 0 then fs[temp].bytes else [];
      ResumeIsSettle(old(fs), url, dest, server);
      WriteChunks(temp, start, reply.chunks);
      if !reply.complete {
        return;
      }
      match ParseTotal(SizeHeader(reply.headers))
      case Err(_) =>
        fs := Replace(fs, temp, dest);
      case Ok(total) =>
        if total != 0 && |fs[temp].bytes| >= total {
          fs := Replace(fs, temp, dest);
        }
    }

    /** The open (`"ab"` keeping `start`, `"wb"` with `start` empty) and the
        `iter_chunked` loop writing each chunk as it arrives. */
    method WriteChunks(temp: string, start: seq<byte>, chunks: seq<seq<byte>>)
      modifies this
      ensures fs == old(fs)[temp := File(start + Concat(chunks))]
    {
      fs := fs[temp := File(start)];
      var i := 0;
      assert chunks[..0] == [] && start + [] == start;
      while i < |chunks|
        invariant 0 <= i <= |chunks|
        invariant fs == old(fs)[temp := File(start + Concat(chunks[..i]))]
      {
        assert chunks[..i + 1][..i] == chunks[..i];
        assert start + Concat(chunks[..i + 1]) == start + Concat(chunks[..i]) + chunks[i];
        fs := fs[temp := File(fs[temp].bytes + chunks[i])];
        i := i + 1;
      }
      assert chunks[..i] == chunks;
    }

    /** Carries out one transfer of a post's plan. */
    method Transfer(a: Action, server: Server)
      requires a.Fetch?
      modifies this
      ensures Step(old(fs), a, server) == Ok(fs)
    {
      match a.mode
      case WholeFile => DownloadImage(a.url, a.path, server);
      case Resumable => DownloadWithResume(a.url, a.path, server);
    }

    /** `asyncio.gather(*download_tasks)`, with the transfers taken in list order. */
    method Gather(tasks: seq<Action>, server: Server)
      requires forall i :: 0 <= i < |tasks| ==> tasks[i].Fetch?
      modifies this
      ensures Run(old(fs), tasks, server) == (fs, None)
    {
      var i := 0;
      while i < |tasks|
        invariant 0 <= i <= |tasks|
        invariant Run(old(fs), tasks[..i], server) == (fs, None)
      {
        RunSnoc(old(fs), tasks[..i], tasks[i], server);
        Transfer(tasks[i], server);
        assert tasks[..i + 1] == tasks[..i] + [tasks[i]];
        i := i + 1;
      }
      assert tasks[..i] == tasks;
    }

    /** The loop over `post["files"]`: each one resumable, awaited in turn. */
    method DownloadFiles(dir: string, files: seq<Attachment>, server: Server)
      modifies this
      ensures Run(old(fs), FileFetches(dir, files), server) == (fs, None)
    {
      var j := 0;
      while j < |files|
        invariant 0 <= j <= |files|
        invariant Run(old(fs), FileFetches(dir, files[..j]), server) == (fs, None)
      {
        var f := files[j];
        RunSnoc(old(fs), FileFetches(dir, files[..j]), FileFetch(dir, f), server);
        DownloadWithResume(f.url, Join(dir, f.name), server);
        FileFetchesSnoc(dir, files, j);
        j := j + 1;
      }
      assert files[..j] == files;
    }

    /** Writing `external_links.txt` when the post has links. */
    method SaveLinks(post: Post, dir: string, server: Server) returns (err: Option<SaveError>)
      modifies this
      ensures Run(old(fs), LinksWrite(post, dir), server) == (fs, err)
    {
      err := None;
      if post.externalLinks != [] {
        var linksPath := Join(dir, LinksFileName);
        var write := WriteText(linksPath, JoinLines(post.externalLinks));
        assert Run(old(fs), [write], server) == (match Step(old(fs), write, server)
          case Err(e) => (old(fs), Some(e))
          case Ok(next) => Run(next, [], server));
        if linksPath in fs && fs[linksPath].Dir? {
          err := Some(LinksNotWritable(linksPath));
          return;
        }
        fs := fs[linksPath := Text(JoinLines(post.externalLinks))];
      }
    }

    /** `save_post_concurrent(post, base_path, session, sem, update_status)`:
        resolves the folder, runs the image transfers, then each of `files`
        in turn, writes `external_links.txt` when there are links and finally
        calls the callback when `reporting`. `r` lists the actions carried
        out; the ghost `k` is the folder candidate chosen. */
    method SavePostConcurrent(post: Post, base: string, server: Server, reporting: bool)
      returns (r: Result<seq<Action>, SaveError>, ghost k: nat)
      modifies this
      ensures FirstStop(old(fs), base, post.title, post.id, k)
      ensures var (folder, resolved) := ResolveAt(old(fs), base, post.title, post.id, k);
        match folder
        case Err(e) => r == Err(FolderNotUsable(e)) && fs == old(fs)
        case Ok(dir) =>
          var plan := PostPlan(post, dir, reporting);
          var (after, err) := Run(resolved, plan, server);
          fs == after && r == (if err.None? then Ok(plan) else Err(err.value))
    {
      var folder;
      folder, k := GetUniqueFolder(base, post.title, post.id);
      if folder.Err? {
        return Err(FolderNotUsable(folder.error)), k;
      }
      var dir := folder.value;
      ghost var resolved := fs;

      var tasks := ImageTasks(dir, post.images);
      assert forall i :: 0 <= i < |tasks| ==> tasks[i].Fetch?;
      if tasks != [] {
        Gather(tasks, server);
      } else {
        assert Run(fs, tasks, server) == (fs, None);
      }
      ghost var afterImages := fs;
      DownloadFiles(dir, post.files, server);
      ghost var afterFiles := fs;
      var failure := SaveLinks(post, dir, server);
      RunInStages(resolved, afterImages, afterFiles, fs, failure, post, dir, reporting, server);
      if failure.Some? {
        return Err(failure.value), k;
      }
      r := Ok(PostPlan(post, dir, reporting));
    }
  }
}
