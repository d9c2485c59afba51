/** The command line of `main.py`: the profile URL, the optional download
    directory, the two concurrency limits and the day mode, and the author id
    found in the URL. */
module CommandLine {
  import opened Wrappers
  import opened PyStrings

  const DefaultSaveDir: string := "./download"
  const DefaultConcurrency: int := 16
  const DefaultPostConcurrency: int := 2
  const DefaultDayMode: int := 0

  /** The settings of one run. */
  datatype Config = Config(
    url: string,
    saveDir: string,
    concurrency: int,
    postConcurrency: int,
    dayMode: int,
    userId: string)

  /** Why `main` stops: too few arguments (the usage text), a numeric
      argument `int()` rejects (an uncaught `ValueError`), or a URL without
      `/user/<digits>`. */
  datatype CliError = Usage | NotAnInteger(arg: string) | NoUserId(url: string)

  /** `int(argv[i]) if len(argv) > i else default`. */
  function IntArg(argv: seq<string>, i: nat, default: int): (r: Result<int, CliError>)
    ensures |argv| <= i ==> r == Ok(default)
    ensures |argv| > i ==> (r.Ok? <==> PyInt(argv[i]).Some?)
    ensures |argv| > i && r.Ok? ==> r.value == PyInt(argv[i]).value
  {
    if |argv| > i then
      match PyInt(argv[i])
      case None => Err(NotAnInteger(argv[i]))
      case Some(v) => Ok(v)
    else Ok(default)
  }

  /** `"/user/"` followed by a digit starts at `p`. */
  predicate UserAt(url: string, p: nat) {
    p + 6 < |url| && url[p..p + 6] == "/user/" && IsDigit(url[p + 6])
  }

  /** The first position at or after `from` where `/user/<digit>` starts:
      where `re.search` finds its match. */
  function UserPos(url: string, from: nat): (r: Option<nat>)
    ensures r.Some? ==> from <= r.value && UserAt(url, r.value)
    ensures r.Some? ==> forall q :: from <= q < r.value ==> !UserAt(url, q)
    ensures r.None? ==> forall q :: from <= q ==> !UserAt(url, q)
    decreases |url| - from
  {
    if from + 6 >= |url| then None
    else if UserAt(url, from) then Some(from)
    else UserPos(url, from + 1)
  }

  /** The run of digits `\d+` takes greedily at the start of `s`. */
  function DigitRun(s: string): (r: string)
    ensures AllDigits(r) && |r| <= |s| && r == s[..|r|]
    ensures |r| < |s| ==> !IsDigit(s[|r|])
  {
    if s == [] || !IsDigit(s[0]) then [] else [s[0]] + DigitRun(s[1..])
  }

  /** `re.search(r"/user/(\d+)", url).group(1)`, or `None` without a match. */
  function FindUserId(url: string): (r: Option<string>)
  {
    match UserPos(url, 0)
    case None => None
    case Some(p) => Some(DigitRun(url[p + 6..]))
  }

  /** The id found is the whole digit run after the leftmost `/user/`
      followed by a digit; none is found exactly when there is no such place. */
  lemma FindUserIdMeaning(url: string)
    ensures FindUserId(url).None? <==> forall q :: !UserAt(url, q)
    ensures FindUserId(url).Some? ==>
      exists p :: && UserAt(url, p)
                  && (forall q :: q < p ==> !UserAt(url, q))
                  && FindUserId(url).value == DigitRun(url[p + 6..])
    ensures FindUserId(url).Some? ==>
      var d := FindUserId(url).value;
      |d| > 0 && AllDigits(d)
  {
    match UserPos(url, 0)
    case None =>
    case Some(p) =>
      assert UserAt(url, p);
      var d := DigitRun(url[p + 6..]);
      assert url[p + 6..][0] == url[p + 6];
      assert |d| > 0;
  }

  /** `main`'s argument handling, up to the point where the download starts. */
  function ParseArgs(argv: seq<string>): (r: Result<Config, CliError>)
    ensures |argv| < 2 <==> r == Err(Usage)
    ensures r.Ok? ==> r.value.url == argv[1] && FindUserId(argv[1]) == Some(r.value.userId)
  {
    if |argv| < 2 then Err(Usage)
    else
      var url := argv[1];
      var saveDir := if |argv| > 2 then argv[2] else DefaultSaveDir;
      match IntArg(argv, 3, DefaultConcurrency)
      case Err(e) => Err(e)
      case Ok(concurrency) =>
        match IntArg(argv, 4, DefaultPostConcurrency)
        case Err(e) => Err(e)
        case Ok(postConcurrency) =>
          match IntArg(argv, 5, DefaultDayMode)
          case Err(e) => Err(e)
          case Ok(dayMode) =>
            match FindUserId(url)
            case None => Err(NoUserId(url))
            case Some(userId) => Ok(Config(url, saveDir, concurrency, postConcurrency, dayMode, userId))
  }

  /** With only the URL given, every setting takes its default. */
  lemma ParseArgsDefaults(program: string, url: string)
    requires FindUserId(url).Some?
    ensures ParseArgs([program, url]) ==
      Ok(Config(url, "./download", 16, 2, 0, FindUserId(url).value))
  {
  }

  /** Every setting given on the command line as `str()` of a number is read
      back as that number. */
  lemma ParseArgsReadsNumbers(program: string, url: string, saveDir: string, concurrency: int, postConcurrency: int, dayMode: int)
    requires FindUserId(url).Some?
    ensures ParseArgs([program, url, saveDir, IntStr(concurrency), IntStr(postConcurrency), IntStr(dayMode)]) ==
      Ok(Config(url, saveDir, concurrency, postConcurrency, dayMode, FindUserId(url).value))
  {
    var argv := [program, url, saveDir, IntStr(concurrency), IntStr(postConcurrency), IntStr(dayMode)];
    IntArgOfIntStr(argv, 3, 16, concurrency);
    IntArgOfIntStr(argv, 4, 2, postConcurrency);
    IntArgOfIntStr(argv, 5, 0, dayMode);
    ParseArgsAccepts(argv, concurrency, postConcurrency, dayMode, FindUserId(url).value);
  }

  /** Once the numeric arguments are read and the URL holds an author id,
      the run goes ahead with exactly those settings. */
  lemma ParseArgsAccepts(argv: seq<string>, concurrency: int, postConcurrency: int, dayMode: int, userId: string)
    requires |argv| >= 2
    requires IntArg(argv, 3, DefaultConcurrency) == Ok(concurrency)
    requires IntArg(argv, 4, DefaultPostConcurrency) == Ok(postConcurrency)
    requires IntArg(argv, 5, DefaultDayMode) == Ok(dayMode)
    requires FindUserId(argv[1]) == Some(userId)
    ensures ParseArgs(argv) ==
      Ok(Config(argv[1], if |argv| > 2 then argv[2] else DefaultSaveDir, concurrency, postConcurrency, dayMode, userId))
  {
  }

  /** An argument written as `str(v)` is read as `v`. */
  lemma IntArgOfIntStr(argv: seq<string>, i: nat, default: int, v: int)
    requires i < |argv| && argv[i] == IntStr(v)
    ensures IntArg(argv, i, default) == Ok(v)
  {
    PyIntOfIntStr(v);
  }

  /** A URL without `/user/<digits>` stops the run, whatever the other
      arguments are, unless a numeric argument fails first. */
  lemma ParseArgsNeedsUser(argv: seq<string>)
    requires |argv| >= 2 && FindUserId(argv[1]).None?
    ensures ParseArgs(argv).Err?
    ensures (forall i :: 3 <= i < |argv| && i <= 5 ==> PyInt(argv[i]).Some?) ==>
      ParseArgs(argv) == Err(NoUserId(argv[1]))
  {
  }
}
