/** The batch driver (crawl.py): for every seed URL on the command line it
    names a fresh collection directory after the URL's host, a munged form
    of the URL and a random tag, and runs one crawl into it. */
module Crawl {

  import opened Outcomes
  import opened Strings

  const MungedLimit: nat := 64
  const TagLength: nat := 8
  const UsageExitCode: nat := 2
  const LogName: string := "crawl.log"
  const TraceName: string := "navigations.json"
  /** `string.ascii_letters + string.digits`: 'a'..'z', 'A'..'Z', '0'..'9'. */
  const TagAlphabet: string := CharRange('a', 26) + CharRange('A', 26) + CharRange('0', 10)

  /** The `n` characters whose codes follow `lo`'s, `lo` first. */
  function CharRange(lo: char, n: nat): (r: string)
    requires lo as int + n <= 0xD800
    ensures |r| == n
    ensures forall k :: 0 <= k < n ==> r[k] as int == lo as int + k
  {
    seq(n, k requires 0 <= k < n => (lo as int + k) as char)
  }

  /** A character the pattern `[^-_a-zA-Z0-9]` does not match. */
  predicate Allowed(c: char)
  {
    c == '-' || c == '_' || 'a' <= c <= 'z' || 'A' <= c <= 'Z' || '0' <= c <= '9'
  }

  /** `REPLACEX.sub("_", s)`: every match, one character long, becomes '_'. */
  function ReplaceDisallowed(s: string): string
  {
    seq(|s|, i requires 0 <= i < |s| => if Allowed(s[i]) then s[i] else '_')
  }

  function Min(a: nat, b: nat): nat
  {
    if a <= b then a else b
  }

  /** `munged_url`: the URL with every character outside `[-_a-zA-Z0-9]`
      replaced by '_', cut to its first 64 characters. */
  function MungedUrl(url: string): string
  {
    ReplaceDisallowed(url)[..Min(|url|, MungedLimit)]
  }

  /** The munged URL keeps the first 64 characters of the URL, each one
      allowed as it was and every other one turned into '_'. */
  lemma MungedUrlChars(url: string)
    ensures var r := MungedUrl(url);
      && |r| == Min(|url|, MungedLimit)
      && (forall i :: 0 <= i < |r| ==> r[i] == (if Allowed(url[i]) then url[i] else '_'))
      && (forall i :: 0 <= i < |r| ==> Allowed(r[i]))
  {
  }

  /** The code of the character at position `i` of `TagAlphabet`. */
  function CodeAt(i: int): int
  {
    if i < 26 then 'a' as int + i
    else if i < 52 then 'A' as int + (i - 26)
    else '0' as int + (i - 52)
  }

  /** No character occurs twice in `TagAlphabet`, and each is allowed in a
      directory name as the munged URL's characters are. */
  lemma TagAlphabetDistinct()
    ensures forall i, j :: 0 <= i < j < |TagAlphabet| ==> TagAlphabet[i] != TagAlphabet[j]
    ensures forall i :: 0 <= i < |TagAlphabet| ==> Allowed(TagAlphabet[i])
  {
    var lower, upper, digits := CharRange('a', 26), CharRange('A', 26), CharRange('0', 10);
    assert TagAlphabet == lower + upper + digits;
    forall i | 0 <= i < 62
      ensures TagAlphabet[i] as int == CodeAt(i)
    {
      if i < 26 { assert TagAlphabet[i] == lower[i]; }
      else if i < 52 { assert TagAlphabet[i] == upper[i - 26]; }
      else { assert TagAlphabet[i] == digits[i - 52]; }
    }
  }

  /** What `random.sample(population, 8)` promises: 8 distinct positions of
      the population. */
  predicate IsSample(picks: seq<nat>)
  {
    && |picks| == TagLength
    && (forall i :: 0 <= i < |picks| ==> picks[i] < |TagAlphabet|)
    && (forall i, j :: 0 <= i < j < |picks| ==> picks[i] != picks[j])
  }

  /** `random_tag`: the characters at the sampled positions, joined. */
  function RandomTag(picks: seq<nat>): string
    requires IsSample(picks)
  {
    seq(|picks|, i requires 0 <= i < |picks| => TagAlphabet[picks[i]])
  }

  /** The tag is 8 distinct characters of `TagAlphabet`, each allowed in a
      directory name. */
  lemma RandomTagChars(picks: seq<nat>)
    requires IsSample(picks)
    ensures var r := RandomTag(picks);
      && |r| == TagLength
      && (forall i :: 0 <= i < |r| ==> r[i] in TagAlphabet && Allowed(r[i]))
      && (forall i, j :: 0 <= i < j < |r| ==> r[i] != r[j])
  {
    TagAlphabetDistinct();
  }

  /** `os.path.join(a, b)` on POSIX paths. */
  function PathJoin(a: string, b: string): string
  {
    if StartsWith(b, "/") then b
    else if a == "" || a[|a| - 1] == '/' then a + b
    else a + "/" + b
  }

  /** The joined path ends with `b`, and a relative `b` keeps `a` in front
      of it. */
  lemma PathJoinShape(a: string, b: string)
    ensures var r := PathJoin(a, b);
      && |b| <= |r| && r[|r| - |b|..] == b
      && (!StartsWith(b, "/") ==> StartsWith(r, a))
  {
  }

  /** The last path component of a collection directory: `munged.tag`. */
  function Leaf(munged: string, tag: string): string
  {
    munged + "." + tag
  }

  /** `collection_dir`: `os.path.join(hostname, f"{munged}.{tag}")`. */
  function CollectionDir(hostname: string, munged: string, tag: string): string
  {
    PathJoin(hostname, Leaf(munged, tag))
  }

  /** The leaf is one path component that does not start with '/', so
      `os.path.join` keeps the host and the collection directory lies
      exactly one level below the host's directory. */
  lemma CollectionDirBelowHost(hostname: string, munged: string, tag: string)
    requires forall i :: 0 <= i < |munged| ==> Allowed(munged[i])
    requires forall i :: 0 <= i < |tag| ==> Allowed(tag[i])
    ensures var r := CollectionDir(hostname, munged, tag);
      && StartsWith(r, hostname)
      && (r[|hostname|..] == Leaf(munged, tag) || r[|hostname|..] == "/" + Leaf(munged, tag))
      && |r| > 0 && r[|r| - 1] != '/'
    ensures forall k :: 0 <= k < |Leaf(munged, tag)| ==> Leaf(munged, tag)[k] != '/'
  {
    var leaf := Leaf(munged, tag);
    assert leaf[0] != '/' by {
      if munged != [] { assert Allowed(munged[0]); } else { assert leaf[0] == '.'; }
    }
    forall k | 0 <= k < |leaf|
      ensures leaf[k] != '/'
    {
      if k < |munged| { assert Allowed(munged[k]); }
      else if k > |munged| { assert leaf[k] == tag[k - |munged| - 1] && Allowed(tag[k - |munged| - 1]); }
    }
    var r := PathJoin(hostname, leaf);
    assert r[|r| - 1] == leaf[|leaf| - 1];
  }

  /** Joining a relative name onto a directory that does not end in '/'
      puts exactly one '/' between them. */
  lemma JoinBelow(dir: string, name: string)
    requires |dir| > 0 && dir[|dir| - 1] != '/'
    requires |name| > 0 && name[0] != '/'
    ensures PathJoin(dir, name) == dir + "/" + name
  {
    assert !StartsWith(name, "/") by { assert name[..1][0] == name[0]; }
  }

  /** What the loop sets up for one URL: its directory, its log file, its
      trace file and the command line of the crawl. */
  datatype Job = Job(url: string, collectionDir: string, logFile: string, jsonFile: string, command: seq<string>)

  /** The job for `url`, whose host is `hostname` and whose tag comes from
      the sample `picks`. */
  function JobFor(url: string, hostname: string, picks: seq<nat>): Job
    requires IsSample(picks)
  {
    var dir := CollectionDir(hostname, MungedUrl(url), RandomTag(picks));
    var jsonFile := PathJoin(dir, TraceName);
    Job(url, dir, PathJoin(dir, LogName), jsonFile, ["node", "./main.js", url, jsonFile])
  }

  /** Both files of a job sit directly inside its collection directory,
      which lies one level below the host's, and the crawler is told to
      crawl the job's URL and write its traces to the second file. */
  lemma JobLayout(url: string, hostname: string, picks: seq<nat>)
    requires IsSample(picks)
    ensures var j := JobFor(url, hostname, picks);
      && j.url == url && j.command == ["node", "./main.js", url, j.jsonFile]
      && j.logFile == j.collectionDir + "/" + LogName
      && j.jsonFile == j.collectionDir + "/" + TraceName
      && StartsWith(j.collectionDir, hostname)
      && (j.collectionDir[|hostname|..] == Leaf(MungedUrl(url), RandomTag(picks))
          || j.collectionDir[|hostname|..] == "/" + Leaf(MungedUrl(url), RandomTag(picks)))
  {
    var dir := CollectionDir(hostname, MungedUrl(url), RandomTag(picks));
    RandomTagChars(picks);
    MungedUrlChars(url);
    CollectionDirBelowHost(hostname, MungedUrl(url), RandomTag(picks));
    JoinBelow(dir, LogName);
    JoinBelow(dir, TraceName);
  }

  /** Every pick is a sample, as `random.sample` guarantees. */
  predicate AllSamples(picks: seq<seq<nat>>)
  {
    forall i :: 0 <= i < |picks| ==> IsSample(picks[i])
  }

  /** `job` is the job for `url`, which has a host. */
  predicate MadeFor(job: Job, url: string, host: Option<string>, picks: seq<nat>)
  {
    host.Some? && IsSample(picks) && job == JobFor(url, host.value, picks)
  }

  /** How `main` ends: the usage message with exit code 2, a `TypeError`
      from `os.path.join` for a URL without a host, or after every URL. */
  datatype CrawlEnd = Usage(exitCode: nat) | NoHostname(url: string) | Finished

  /** `main(argv)`, `argv` holding the program name first. `hostnames[i]`
      is `urlparse(argv[i]).hostname` (`None` for a URL without a host) and
      `picks[i]` the sample drawn for `argv[i + 1]`. `jobs` are the crawls
      set up, one per URL up to the first without a host. */
  method CrawlMain(argv: seq<string>, hostnames: seq<Option<string>>, picks: seq<seq<nat>>)
    returns (jobs: seq<Job>, end: CrawlEnd)
    requires |argv| >= 1 && |hostnames| == |argv| && |picks| + 1 >= |argv| && AllSamples(picks)
    ensures end.Usage? <==> |argv| == 1
    ensures end.Usage? ==> end.exitCode == UsageExitCode && jobs == []
    ensures end.Finished? ==> |jobs| == |argv| - 1
    ensures end.NoHostname? ==>
      |jobs| + 1 < |argv| && end.url == argv[|jobs| + 1] && hostnames[|jobs| + 1].None?
    ensures |jobs| < |argv|
    ensures forall i :: 0 <= i < |jobs| ==> MadeFor(jobs[i], argv[i + 1], hostnames[i + 1], picks[i])
  {
    jobs := [];
    if |argv| == 1 {
      return jobs, Usage(UsageExitCode);
    }
    var i := 1;
    while i < |argv|
      invariant 1 <= i <= |argv|
      invariant |jobs| == i - 1
      invariant forall m :: 0 <= m < |jobs| ==> MadeFor(jobs[m], argv[m + 1], hostnames[m + 1], picks[m])
    {
      var url := argv[i];
      var host := hostnames[i];
      if host.None? {
        return jobs, NoHostname(url);
      }
      jobs := jobs + [JobFor(url, host.value, picks[i - 1])];
      i := i + 1;
    }
    end := Finished;
  }
}
