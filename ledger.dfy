/** The completion ledger: one status map per author, keyed by
    `str(post_id)`, whose entries record whether the post was finished.
    Posts whose entry says `finished` are skipped on the next run. */
module Ledger {
  import opened Wrappers
  import opened Records

  /** A JSON value as the status file holds it (floating-point numbers are
      not modelled). */
  datatype Value =
    | Null
    | Bool(b: bool)
    | Num(n: int)
    | JString(s: string)
    | Array(items: seq<Value>)
    | Object(fields: map<string, Value>)

  /** Python truthiness of the decoded value. */
  predicate Truthy(v: Value) {
    match v
    case Null => false
    case Bool(b) => b
    case Num(n) => n != 0
    case JString(s) => s != ""
    case Array(items) => items != []
    case Object(fields) => fields != map[]
  }

  /** One post's entry. */
  type Entry = map<string, Value>

  /** One author's status map. */
  type Status = map<string, Entry>

  /** `{"finished": finished}` updated with `extra` when `extra` is a
      non-empty dict: a key of `extra` overrides. */
  function NewEntry(finished: bool, extra: Option<Entry>): Entry {
    var entry := map["finished" := Bool(finished)];
    if extra.Some? && extra.value != map[] then entry + extra.value else entry
  }

  /** The entry holds `finished` and the keys of `extra`, and no other; each
      key of `extra` keeps its value, and `finished` is the flag unless
      `extra` overrides it. */
  lemma NewEntryContents(finished: bool, extra: Option<Entry>)
    ensures var e := NewEntry(finished, extra);
      var more := if extra.Some? then extra.value else map[];
      && (forall k :: k in e <==> k == "finished" || k in more)
      && (forall k :: k in more ==> e[k] == more[k])
      && e["finished"] == (if "finished" in more then more["finished"] else Bool(finished))
  {
    var e := NewEntry(finished, extra);
    var more := if extra.Some? then extra.value else map[];
    forall k
      ensures k in e <==> k == "finished" || k in more
    {
      if extra.Some? && extra.value != map[] {
        assert e == map["finished" := Bool(finished)] + more;
      }
    }
  }

  /** `status[str(post_id)] = entry`. */
  function Recorded(status: Status, key: string, finished: bool, extra: Option<Entry>): Status {
    status[key := NewEntry(finished, extra)]
  }

  /** `status.get(str(post["id"]), {}).get("finished")` is truthy. */
  predicate Finished(status: Status, id: PostId) {
    var key := Str(id);
    key in status && "finished" in status[key] && Truthy(status[key]["finished"])
  }

  /** The posts `filtered_stream` passes on, in stream order. */
  function Filtered(status: Status, posts: seq<Post>): (r: seq<Post>)
    ensures |r| <= |posts|
  {
    if posts == [] then []
    else
      var before := Filtered(status, posts[..|posts| - 1]);
      var last := posts[|posts| - 1];
      if Finished(status, last.id) then before else before + [last]
  }

  /** A post comes through exactly when it is in the stream and not finished. */
  lemma {:induction false} FilteredMembers(status: Status, posts: seq<Post>, p: Post)
    ensures p in Filtered(status, posts) <==> p in posts && !Finished(status, p.id)
  {
    if posts != [] {
      var init := posts[..|posts| - 1];
      FilteredMembers(status, init, p);
      assert posts == init + [posts[|posts| - 1]];
    }
  }

  /** Filtering a concatenated stream filters each part: stream order is kept. */
  lemma {:induction false} FilteredAppend(status: Status, a: seq<Post>, b: seq<Post>)
    ensures Filtered(status, a + b) == Filtered(status, a) + Filtered(status, b)
    decreases |b|
  {
    if b == [] {
      assert a + b == a;
    } else {
      var n := |b| - 1;
      assert (a + b)[..|a + b| - 1] == a + b[..n];
      assert (a + b)[|a + b| - 1] == b[n];
      FilteredAppend(status, a, b[..n]);
    }
  }

  /** Once a post is recorded as finished (with no `extra` overriding the
      flag), a later run skips every post with the same `str(id)` and lets
      through exactly the posts it let through before, apart from those. */
  lemma RecordedThenSkipped(status: Status, posts: seq<Post>, id: PostId, extra: Option<Entry>, p: Post)
    requires extra.None? || "finished" !in extra.value
    ensures p in Filtered(Recorded(status, Str(id), true, extra), posts) <==>
      p in Filtered(status, posts) && Str(p.id) != Str(id)
  {
    var after := Recorded(status, Str(id), true, extra);
    NewEntryContents(true, extra);
    FilteredMembers(status, posts, p);
    FilteredMembers(after, posts, p);
  }

  /** A flag `extra` sets to a falsy value leaves the post to be fetched again. */
  lemma FalsyOverrideNotSkipped(status: Status, id: PostId, finished: bool, extra: Entry)
    requires "finished" in extra && !Truthy(extra["finished"])
    ensures !Finished(Recorded(status, Str(id), finished, Some(extra)), id)
  {
    NewEntryContents(finished, Some(extra));
  }

  /** The `filtered_stream` generator over the posts the producer yields. */
  method FilteredStream(status: Status, posts: seq<Post>) returns (out: seq<Post>)
    ensures out == Filtered(status, posts)
  {
    out := [];
    for i := 0 to |posts|
      invariant out == Filtered(status, posts[..i])
    {
      assert posts[..i + 1][..i] == posts[..i];
      var post := posts[i];
      var key := Str(post.id);
      var entry := if key in status then status[key] else map[];
      if "finished" in entry && Truthy(entry["finished"]) {
        continue;
      }
      out := out + [post];
    }
    assert posts[..|posts|] == posts;
  }

  /** `load_status(user_id)`: the saved map, or an empty one when the author
      has none yet. */
  function LoadStatus(files: map<string, Status>, user: string): Status {
    if user in files then files[user] else map[]
  }

  /** The per-author status files. */
  class StatusFiles {
    var files: map<string, Status>

    constructor(initial: map<string, Status>)
      ensures files == initial
    {
      files := initial;
    }

    /** `update_status_func(user_id, post_id, finished, extra)`: loads the
        author's map, replaces the post's entry and saves the whole map;
        every other author and every other post is left as it was. */
    method UpdateStatus(user: string, postId: PostId, finished: bool, extra: Option<Entry>)
      modifies this
      ensures files == old(files)[user := Recorded(LoadStatus(old(files), user), Str(postId), finished, extra)]
      ensures forall u :: u != user ==> (u in files <==> u in old(files))
      ensures forall u :: u != user && u in files ==> files[u] == old(files)[u]
      ensures forall k :: k != Str(postId) ==>
        (k in files[user] <==> k in LoadStatus(old(files), user))
    {
      var status := LoadStatus(files, user);
      var entry := map["finished" := Bool(finished)];
      if extra.Some? && extra.value != map[] {
        entry := entry + extra.value;
      }
      status := status[Str(postId) := entry];
      files := files[user := status];
    }
  }
}
