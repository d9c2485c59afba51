/** The local disk as the downloader sees it: a flat map from path strings to
    nodes, POSIX `os.path.join`, and `os.replace`. */
module FileSystem {

  newtype byte = b: int | 0 <= b < 256

  /** A directory, a file written in binary mode, or a file written in text
      mode (the `.post_id` marker and `external_links.txt`). */
  datatype Node = Dir | File(bytes: seq<byte>) | Text(text: string)

  type FileTree = map<string, Node>

  predicate IsAbsolute(p: string) {
    |p| > 0 && p[0] == '/'
  }

  /** POSIX `os.path.join(dir, name)`: an absolute `name` replaces `dir`;
      otherwise a `/` is inserted unless `dir` is empty or already ends in one. */
  function Join(dir: string, name: string): string {
    if IsAbsolute(name) then name
    else if dir == [] || dir[|dir| - 1] == '/' then dir + name
    else dir + "/" + name
  }

  /** The entry a path names: the path with its trailing `/`s dropped, a
      lone `/` excepted. */
  function Unslashed(p: string): (r: string)
    ensures |r| <= |p| && r == p[..|r|]
    ensures forall i :: |r| <= i < |p| ==> p[i] == '/'
    ensures |r| <= 1 || r[|r| - 1] != '/'
    ensures p != [] ==> r != []
  {
    if |p| > 1 && p[|p| - 1] == '/' then Unslashed(p[..|p| - 1]) else p
  }

  /** `os.path.exists(p)`: the entry the path names is there, and a path
      written with a trailing `/` names a directory only. The empty path
      names nothing. */
  predicate PathExists(fs: FileTree, p: string) {
    p != [] && Unslashed(p) in fs && (Unslashed(p) != p ==> fs[Unslashed(p)].Dir?)
  }

  /** `os.replace(src, dst)`: the node moves to `dst`, replacing what was
      there; replacing a directory by a file raises, which leaves the tree as
      it was. */
  function Replace(fs: FileTree, src: string, dst: string): (r: FileTree)
    requires src in fs
    ensures dst in fs && fs[dst].Dir? ==> r == fs
    ensures !(dst in fs && fs[dst].Dir?) && src != dst ==>
              src !in r && dst in r && r[dst] == fs[src]
              && forall p :: p != src && p != dst ==> (p in r <==> p in fs) && (p in r ==> r[p] == fs[p])
  {
    if dst in fs && fs[dst].Dir? then fs else (fs - {src})[dst := fs[src]]
  }
}
