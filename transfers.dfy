/** The two transfer modes as functions from the file tree before a call to
    the file tree after it. The network is a parameter: a `Server` answers a
    GET of a URL with given request headers. Both modes write to
    `<dest>.temp` and move it over `<dest>` with `os.replace` when they
    consider the transfer complete. `Downloader.Disk` runs the same steps
    as methods. */
module Transfers {
  import opened Wrappers
  import opened PyStrings
  import opened FileSystem

  /** One response as aiohttp hands it over: status, headers and the body in
      chunks; `complete` is false when reading the body raised after the
      chunks shown. `ConnectError` is a request that raised before any
      response. */
  datatype Reply =
    | Reply(status: int, headers: map<string, string>, chunks: seq<seq<byte>>, complete: bool)
    | ConnectError

  /** The remote side: the response to a GET of a URL with some request headers. */
  type Server = (string, map<string, string>) -> Reply

  datatype ParseError = NotAnInteger(text: string)

  /** The whole body: the chunks in the order they arrived. */
  function Concat(chunks: seq<seq<byte>>): seq<byte> {
    if chunks == [] then [] else Concat(chunks[..|chunks| - 1]) + chunks[|chunks| - 1]
  }

  function TempPath(dest: string): string {
    dest + ".temp"
  }

  /** The size `os.path.getsize` reports for an existing temporary file, 0 when there is none. */
  function ExistingBytes(fs: FileTree, temp: string): seq<byte> {
    if temp in fs && fs[temp].File? then fs[temp].bytes else []
  }

  /** Opening the temporary path for writing succeeds: nothing is there, or a byte file. */
  predicate Writable(fs: FileTree, temp: string) {
    temp !in fs || fs[temp].File?
  }

  /** The request headers: a `Range` from the current temporary size onwards, or none. */
  function RangeHeaders(size: nat): map<string, string> {
    if size == 0 then map[] else map["Range" := "bytes=" + Dec(size) + "-"]
  }

  /** The response header the total size is read from: Content-Range, or
      Content-Length when Content-Range is missing or empty. */
  function SizeHeader(headers: map<string, string>): Option<string> {
    if "Content-Range" in headers && headers["Content-Range"] != "" then Some(headers["Content-Range"])
    else if "Content-Length" in headers then Some(headers["Content-Length"])
    else None
  }

  /** The total size: `int()` of the text after the last `/` when the header
      has one, else `int()` of the whole header; a missing or empty header
      gives 0. An `Err` is the exception `int()` raises. */
  function ParseTotal(header: Option<string>): Result<int, ParseError> {
    if header.Some? && header.value != "" then
      var h := header.value;
      var text := if '/' in h then LastSegment(h, '/') else h;
      (match PyInt(text)
       case Some(n) => Ok(n)
       case None => Err(NotAnInteger(text)))
    else Ok(0)
  }

  /** A bare Content-Length is read as the number it spells. */
  lemma ParseTotalOfLength(n: nat)
    ensures ParseTotal(Some(Dec(n))) == Ok(n)
  {
    PyIntOfDec(n);
    assert '/' !in Dec(n) by {
      assert AllDigits(Dec(n));
    }
  }

  /** With a `/` in the header, the total is `int()` of what follows the last one. */
  lemma ParseTotalAfterSlash(h: string)
    requires '/' in h
    ensures var text := LastSegment(h, '/');
      ParseTotal(Some(h)) == if PyInt(text).Some? then Ok(PyInt(text).value) else Err(NotAnInteger(text))
  {
  }

  /** A Content-Range is read by the number after its last `/`. */
  lemma ParseTotalOfRange(prefix: string, n: nat)
    ensures ParseTotal(Some(prefix + "/" + Dec(n))) == Ok(n)
  {
    var h := prefix + "/" + Dec(n);
    assert '/' !in Dec(n) by {
      assert AllDigits(Dec(n));
    }
    assert h[|prefix|] == '/';
    ParseTotalAfterSlash(h);
    LastSegmentAfter(prefix, '/', Dec(n));
    PyIntOfDec(n);
  }

  /** `*` after the slash, how an unknown length is written, makes `int()` raise. */
  lemma ParseTotalOfUnknown(prefix: string)
    ensures ParseTotal(Some(prefix + "/*")).Err?
  {
    var h := prefix + "/*";
    assert h[|prefix|] == '/';
    ParseTotalAfterSlash(h);
    LastSegmentAfter(prefix, '/', "*");
    StarIsNotAnInteger();
  }

  lemma StarIsNotAnInteger()
    ensures PyInt("*") == None
  {
    var s := "*";
    assert |s| == 1 && s[0] == '*';
    assert !IsSpace(s[0]) && !IsDigit(s[0]);
    PyIntRejectsNonDigit(s);
  }

  /** The total is read back from the headers a server writes: a bare
      Content-Length, the `/<total>` of a Content-Range, nothing at all (0),
      and a star after the slash (an exception). */
  lemma ParseTotalReadsHeaders(prefix: string, n: nat)
    ensures ParseTotal(Some(Dec(n))) == Ok(n)
    ensures ParseTotal(Some(prefix + "/" + Dec(n))) == Ok(n)
    ensures ParseTotal(None) == Ok(0) && ParseTotal(Some("")) == Ok(0)
    ensures ParseTotal(Some(prefix + "/*")).Err?
  {
    ParseTotalOfLength(n);
    ParseTotalOfRange(prefix, n);
    ParseTotalOfUnknown(prefix);
  }

  /** Only 200 and 206 responses are written to disk. */
  predicate Accepted(reply: Reply) {
    reply.Reply? && (reply.status == 200 || reply.status == 206)
  }

  /** No path other than `temp` and `dest` changed between `fs` and `r`. */
  ghost predicate OthersUnchanged(fs: FileTree, r: FileTree, temp: string, dest: string) {
    forall p :: p != temp && p != dest ==> (p in r <==> p in fs) && (p in r ==> r[p] == fs[p])
  }

  /** `dest` holds `data` and the temporary file is gone. */
  predicate Committed(r: FileTree, temp: string, dest: string, data: seq<byte>) {
    temp !in r && dest in r && r[dest] == File(data)
  }

  /** The temporary file holds `data` and `dest` is as it was. */
  predicate KeptPartial(fs: FileTree, r: FileTree, temp: string, dest: string, data: seq<byte>) {
    temp in r && r[temp] == File(data) && (dest in r <==> dest in fs) && (dest in r ==> r[dest] == fs[dest])
  }

  /** The chunk loop and the commit rule once a response was accepted and the
      temporary file opened: `keep` is what the open mode left of it. */
  function WriteAndSettle(fs: FileTree, temp: string, dest: string, reply: Reply, keep: seq<byte>): (r: FileTree)
    requires reply.Reply? && temp != dest
    ensures var data := keep + Concat(reply.chunks);
      && OthersUnchanged(fs, r, temp, dest)
      && (Committed(r, temp, dest, data) || KeptPartial(fs, r, temp, dest, data))
      && (Committed(r, temp, dest, data) <==>
            && reply.complete && !(dest in fs && fs[dest].Dir?)
            && match ParseTotal(SizeHeader(reply.headers))
               case Err(_) => true
               case Ok(total) => total != 0 && |data| >= total)
  {
    var data := keep + Concat(reply.chunks);
    var written := fs[temp := File(data)];
    if !reply.complete then written
    else match ParseTotal(SizeHeader(reply.headers))
      case Err(_) => Replace(written, temp, dest)
      case Ok(total) => if total != 0 && |data| >= total then Replace(written, temp, dest) else written
  }

  /** `download_with_resume(url, dest)` as written: the request carries a
      Range when the temporary file is non-empty; a 200 or 206 response is
      appended to it in that case and overwrites it otherwise. */
  function ResumeEffect(fs: FileTree, url: string, dest: string, server: Server): (r: FileTree)
    ensures var temp := TempPath(dest);
      var old_ := ExistingBytes(fs, temp);
      var reply := server(url, RangeHeaders(|old_|));
      && OthersUnchanged(fs, r, temp, dest)
      && (!Accepted(reply) || !Writable(fs, temp) ==> r == fs)
      && (Accepted(reply) && Writable(fs, temp) ==>
            var data := old_ + Concat(reply.chunks);
            Committed(r, temp, dest, data) || KeptPartial(fs, r, temp, dest, data))
  {
    var temp := TempPath(dest);
    var size := |ExistingBytes(fs, temp)|;
    var reply := server(url, RangeHeaders(size));
    if !Accepted(reply) || !Writable(fs, temp) then fs
    else WriteAndSettle(fs, temp, dest, reply, if size != 0 then ExistingBytes(fs, temp) else [])
  }

  /** `download_image(url, dest)`: a GET without headers; only a 200 response
      is written, whole, to the temporary file and then moved onto `dest`. */
  function ImageEffect(fs: FileTree, url: string, dest: string, server: Server): (r: FileTree)
    ensures var temp := TempPath(dest);
      var reply := server(url, map[]);
      && OthersUnchanged(fs, r, temp, dest)
      && (!(reply.Reply? && reply.status == 200) || (temp in fs && fs[temp].Dir?) ==> r == fs)
      && ((reply.Reply? && reply.status == 200 && reply.complete && Writable(fs, temp)
            && !(dest in fs && fs[dest].Dir?)) ==> Committed(r, temp, dest, Concat(reply.chunks)))
      && ((reply.Reply? && reply.status == 200 && reply.complete && Writable(fs, temp)
            && dest in fs && fs[dest].Dir?) ==> KeptPartial(fs, r, temp, dest, Concat(reply.chunks)))
      && (reply.Reply? && reply.status == 200 && !reply.complete && Writable(fs, temp) ==>
            KeptPartial(fs, r, temp, dest, []))
  {
    var temp := TempPath(dest);
    var reply := server(url, map[]);
    if !(reply.Reply? && reply.status == 200) || (temp in fs && fs[temp].Dir?) then fs
    else if !reply.complete then fs[temp := File([])]
    else Replace(fs[temp := File(Concat(reply.chunks))], temp, dest)
  }

  // ---- what a well-behaved server sends ----

  /** A 200 response with all of `resource`, announced by Content-Length. */
  predicate FullReply(reply: Reply, resource: seq<byte>) {
    && reply.Reply? && reply.status == 200 && reply.complete
    && Concat(reply.chunks) == resource
    && reply.headers == map["Content-Length" := Dec(|resource|)]
  }

  /** A 206 response with `resource[from..]`, its Content-Range naming the
      total and its Content-Length the part sent. */
  predicate PartialReply(reply: Reply, resource: seq<byte>, from: nat) {
    && from < |resource|
    && reply.Reply? && reply.status == 206 && reply.complete
    && Concat(reply.chunks) == resource[from..]
    && reply.headers == map[
         "Content-Range" := "bytes " + Dec(from) + "-" + Dec(|resource| - 1) + "/" + Dec(|resource|),
         "Content-Length" := Dec(|resource| - from)]
  }

  lemma SizeOfFullReply(reply: Reply, resource: seq<byte>)
    requires FullReply(reply, resource)
    ensures ParseTotal(SizeHeader(reply.headers)) == Ok(|resource|)
  {
    ParseTotalOfLength(|resource|);
  }

  lemma SizeOfPartialReply(reply: Reply, resource: seq<byte>, from: nat)
    requires PartialReply(reply, resource, from)
    ensures ParseTotal(SizeHeader(reply.headers)) == Ok(|resource|)
  {
    ParseTotalOfRange("bytes " + Dec(from) + "-" + Dec(|resource| - 1), |resource|);
  }

  // ---- properties of the resumable mode ----

  /** The temporary file never shrinks: whatever it held is a prefix of what
      it, or the committed destination, holds afterwards. */
  lemma ResumeNeverShrinks(fs: FileTree, url: string, dest: string, server: Server)
    ensures var temp := TempPath(dest);
      var before := ExistingBytes(fs, temp);
      var r := ResumeEffect(fs, url, dest, server);
      (temp in r && r[temp].File? && before <= r[temp].bytes)
      || (temp !in r && dest in r && r[dest].File? && before <= r[dest].bytes)
      || r == fs
  {
  }

  /** Resuming an interrupted transfer against a server that honours Range:
      the temporary file holds the first bytes of the resource, the 206
      response brings the rest, and the destination ends up with exactly the
      resource. A first attempt (nothing on disk, a full 200 response) ends
      the same way. */
  lemma ResumeCompletesTransfer(fs: FileTree, url: string, dest: string, server: Server, resource: seq<byte>)
    requires Writable(fs, TempPath(dest)) && !(dest in fs && fs[dest].Dir?)
    requires var p := ExistingBytes(fs, TempPath(dest));
      && |p| < |resource| && p == resource[..|p|]
      && (if p == [] then FullReply(server(url, map[]), resource)
          else PartialReply(server(url, RangeHeaders(|p|)), resource, |p|))
    ensures Committed(ResumeEffect(fs, url, dest, server), TempPath(dest), dest, resource)
  {
    var p := ExistingBytes(fs, TempPath(dest));
    var reply := server(url, RangeHeaders(|p|));
    if p == [] {
      assert RangeHeaders(|p|) == map[];
      FullReplySettles(reply, resource);
    } else {
      PartialReplySettles(reply, resource, p);
    }
    ResumeIsSettle(fs, url, dest, server);
    SettleCommits(fs, TempPath(dest), dest, reply, p, |resource|);
  }

  /** A full 200 response, written over an empty temporary file, brings the
      whole resource and announces its size. */
  lemma FullReplySettles(reply: Reply, resource: seq<byte>)
    requires FullReply(reply, resource) && |resource| > 0
    ensures reply.Reply? && reply.complete && Accepted(reply)
    ensures ParseTotal(SizeHeader(reply.headers)) == Ok(|resource|)
    ensures [] + Concat(reply.chunks) == resource
  {
    SizeOfFullReply(reply, resource);
  }

  /** A 206 response continuing the prefix `p` completes it to the resource
      and announces the resource's size. */
  lemma PartialReplySettles(reply: Reply, resource: seq<byte>, p: seq<byte>)
    requires |p| < |resource| && p == resource[..|p|] && PartialReply(reply, resource, |p|)
    ensures reply.Reply? && reply.complete && Accepted(reply) && reply.status == 206
    ensures ParseTotal(SizeHeader(reply.headers)) == Ok(|resource|)
    ensures p + Concat(reply.chunks) == resource
  {
    SizeOfPartialReply(reply, resource, |p|);
    assert resource == resource[..|p|] + resource[|p|..];
  }

  /** An accepted response to a writable temporary path goes through the
      chunk loop, keeping the old bytes exactly when a Range was sent. */
  lemma ResumeIsSettle(fs: FileTree, url: string, dest: string, server: Server)
    requires Writable(fs, TempPath(dest))
    requires Accepted(server(url, RangeHeaders(|ExistingBytes(fs, TempPath(dest))|)))
    ensures var temp := TempPath(dest);
      var p := ExistingBytes(fs, temp);
      && temp != dest
      && ResumeEffect(fs, url, dest, server) == WriteAndSettle(fs, temp, dest, server(url, RangeHeaders(|p|)), p)
  {
    assert |TempPath(dest)| == |dest| + 5;
  }

  /** A complete response whose announced total is reached is committed. */
  lemma SettleCommits(fs: FileTree, temp: string, dest: string, reply: Reply, keep: seq<byte>, total: int)
    requires reply.Reply? && temp != dest && reply.complete && !(dest in fs && fs[dest].Dir?)
    requires ParseTotal(SizeHeader(reply.headers)) == Ok(total)
    requires total != 0 && |keep + Concat(reply.chunks)| >= total
    ensures Committed(WriteAndSettle(fs, temp, dest, reply, keep), temp, dest, keep + Concat(reply.chunks))
  {
  }

  /** A temporary file that already holds the whole resource is not
      truncated: the Range request starts at its end, the server answers
      416, and nothing on disk changes. */
  lemma ResumeKeepsFinishedTemp(fs: FileTree, url: string, dest: string, server: Server)
    requires |ExistingBytes(fs, TempPath(dest))| > 0
    requires server(url, RangeHeaders(|ExistingBytes(fs, TempPath(dest))|)).Reply?
    requires server(url, RangeHeaders(|ExistingBytes(fs, TempPath(dest))|)).status == 416
    ensures ResumeEffect(fs, url, dest, server) == fs
    ensures ResumeEffectCorrected(fs, url, dest, server) == fs
  {
  }

  /** A response with neither size header makes the total 0, and a total of
      0 never commits: an empty resource stays in its temporary file. */
  lemma ResumeNeedsKnownTotal(fs: FileTree, url: string, dest: string, server: Server)
    requires Writable(fs, TempPath(dest))
    requires var reply := server(url, RangeHeaders(|ExistingBytes(fs, TempPath(dest))|));
      Accepted(reply) && reply.complete
      && "Content-Range" !in reply.headers && "Content-Length" !in reply.headers
    ensures !Committed(ResumeEffect(fs, url, dest, server), TempPath(dest), dest,
                       ExistingBytes(fs, TempPath(dest)) + Concat(server(url, RangeHeaders(|ExistingBytes(fs, TempPath(dest))|)).chunks))
    ensures var p := ExistingBytes(fs, TempPath(dest));
      var reply := server(url, RangeHeaders(|p|));
      !Committed(ResumeEffectCorrected(fs, url, dest, server), TempPath(dest), dest,
                 (if reply.status == 206 then p else []) + Concat(reply.chunks))
  {
    ResumeIsSettle(fs, url, dest, server);
    CorrectedIsSettle(fs, url, dest, server);
  }

  // ---- the append-on-200 discrepancy ----

  /** A server may ignore Range and answer 200 with the whole resource. The
      code then appends that body to the partial file and, since the result
      is at least Content-Length long, commits the old prefix followed by the
      whole resource. */
  lemma IgnoredRangeAppends(fs: FileTree, url: string, dest: string, server: Server, p: seq<byte>, resource: seq<byte>)
    requires fs == map[TempPath(dest) := File(p)] && p != [] && resource != []
    requires FullReply(server(url, RangeHeaders(|p|)), resource)
    ensures ResumeEffect(fs, url, dest, server) == map[dest := File(p + resource)]
  {
    var temp := TempPath(dest);
    assert ExistingBytes(fs, temp) == p;
    ResumeIsSettle(fs, url, dest, server);
    SettleAppendsWhole(fs, temp, dest, server(url, RangeHeaders(|p|)), p, resource);
  }

  /** The chunk loop and commit rule on a tree holding only the temporary
      file, for a full reply: the destination gets the old bytes and then
      the resource. */
  lemma SettleAppendsWhole(fs: FileTree, temp: string, dest: string, reply: Reply, p: seq<byte>, resource: seq<byte>)
    requires fs == map[temp := File(p)] && temp != dest && resource != []
    requires FullReply(reply, resource)
    ensures WriteAndSettle(fs, temp, dest, reply, p) == map[dest := File(p + resource)]
  {
    var r := WriteAndSettle(fs, temp, dest, reply, p);
    assert Concat(reply.chunks) == resource;
    SizeOfFullReply(reply, resource);
    SettleCommits(fs, temp, dest, reply, p, |resource|);
    assert fs.Keys == {temp};
    CommittedAlone(fs, r, temp, dest, p + resource);
  }

  /** The smallest instance: with one byte already on disk and the two-byte
      resource [1, 2], the destination becomes [1, 1, 2]. */
  lemma IgnoredRangeDuplicatesPrefix(server: Server)
    requires server("u", RangeHeaders(1)) == Reply(200, map["Content-Length" := "2"], [[1, 2]], true)
    ensures FullReply(server("u", RangeHeaders(1)), [1, 2])
    ensures ResumeEffect(map["f.temp" := File([1])], "u", "f", server) == map["f" := File([1, 1, 2])]
  {
    WholeTwoBytes();
    assert TempPath("f") == "f.temp";
    IgnoredRangeAppends(map["f.temp" := File([1])], "u", "f", server, [1], [1, 2]);
  }

  /** The reply in `IgnoredRangeDuplicatesPrefix` is a full reply of [1, 2],
      and appending it to the partial byte gives [1, 1, 2]. */
  lemma WholeTwoBytes()
    ensures FullReply(Reply(200, map["Content-Length" := "2"], [[1, 2]], true), [1, 2])
    ensures var b: seq<byte> := [1] + [1, 2]; b == [1, 1, 2]
  {
    assert Dec(2) == "2";
    assert Concat([[1, 2]]) == [1, 2] by {
      assert [[1, 2]][..0] == [];
    }
  }

  /** A commit out of a tree that held only the temporary file leaves only the destination. */
  lemma CommittedAlone(fs: FileTree, r: FileTree, temp: string, dest: string, data: seq<byte>)
    requires fs.Keys == {temp} && OthersUnchanged(fs, r, temp, dest) && Committed(r, temp, dest, data)
    ensures r == map[dest := File(data)]
  {
    assert r.Keys == {dest};
  }

  /** The evident intent, and the behaviour the rest of this model uses:
      append only to a 206 response, which is the one that continues the
      partial file; a 200 response replaces it. */
  function ResumeEffectCorrected(fs: FileTree, url: string, dest: string, server: Server): (r: FileTree)
    ensures var temp := TempPath(dest);
      var old_ := ExistingBytes(fs, temp);
      var reply := server(url, RangeHeaders(|old_|));
      && OthersUnchanged(fs, r, temp, dest)
      && (!Accepted(reply) || !Writable(fs, temp) ==> r == fs)
      && (Accepted(reply) && Writable(fs, temp) ==>
            var data := (if reply.status == 206 then old_ else []) + Concat(reply.chunks);
            Committed(r, temp, dest, data) || KeptPartial(fs, r, temp, dest, data))
  {
    var temp := TempPath(dest);
    var size := |ExistingBytes(fs, temp)|;
    var reply := server(url, RangeHeaders(size));
    assert |temp| == |dest| + 5;
    if !Accepted(reply) || !Writable(fs, temp) then fs
    else WriteAndSettle(fs, temp, dest, reply,
                        if size != 0 && reply.status == 206 then ExistingBytes(fs, temp) else [])
  }

  /** With the correction, an accepted response to a writable temporary path
      goes through the chunk loop, keeping the old bytes exactly when the
      server answered 206. */
  lemma CorrectedIsSettle(fs: FileTree, url: string, dest: string, server: Server)
    requires Writable(fs, TempPath(dest))
    requires Accepted(server(url, RangeHeaders(|ExistingBytes(fs, TempPath(dest))|)))
    ensures var temp := TempPath(dest);
      var p := ExistingBytes(fs, temp);
      var reply := server(url, RangeHeaders(|p|));
      && temp != dest
      && ResumeEffectCorrected(fs, url, dest, server) ==
         WriteAndSettle(fs, temp, dest, reply, if reply.status == 206 then p else [])
  {
    assert |TempPath(dest)| == |dest| + 5;
  }

  /** With the correction, a transfer completes with exactly the resource
      whether the server honours Range (206) or ignores it (200). */
  lemma CorrectedResumeCompletesTransfer(fs: FileTree, url: string, dest: string, server: Server, resource: seq<byte>)
    requires Writable(fs, TempPath(dest)) && !(dest in fs && fs[dest].Dir?)
    requires var p := ExistingBytes(fs, TempPath(dest));
      && |p| < |resource| && p == resource[..|p|]
      && (FullReply(server(url, RangeHeaders(|p|)), resource)
          || (p != [] && PartialReply(server(url, RangeHeaders(|p|)), resource, |p|)))
    ensures Committed(ResumeEffectCorrected(fs, url, dest, server), TempPath(dest), dest, resource)
  {
    var p := ExistingBytes(fs, TempPath(dest));
    var reply := server(url, RangeHeaders(|p|));
    var keep: seq<byte>;
    if FullReply(reply, resource) {
      FullReplySettles(reply, resource);
      keep := [];
    } else {
      PartialReplySettles(reply, resource, p);
      keep := p;
    }
    CorrectedIsSettle(fs, url, dest, server);
    SettleCommits(fs, TempPath(dest), dest, reply, keep, |resource|);
  }
}
