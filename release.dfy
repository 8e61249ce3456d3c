/** The update-manifest generator of scripts/generate-latest-json.mjs,
    over an in-memory list of artifact paths: URL segment normalisation,
    the base URL, the per-platform artifact matchers, the signature lookup,
    and the collection loop that decides which platforms the manifest
    lists and when the run aborts. */
module Release {
  import opened Wrappers

  // ---------------------------------------------------------------------
  // String helpers (String.prototype methods used by the script)
  // ---------------------------------------------------------------------

  predicate StartsWith(s: string, p: string) { |p| <= |s| && s[..|p|] == p }

  predicate EndsWith(s: string, p: string) { |p| <= |s| && s[|s| - |p|..] == p }

  /** `s.includes(p)`. */
  predicate Contains(s: string, p: string)
    decreases |s|
  {
    StartsWith(s, p) || (|s| > 0 && Contains(s[1..], p))
  }

  function LowerChar(c: char): char
  {
    if 'A' <= c <= 'Z' then (c as int + 32) as char else c
  }

  /** `s.toLowerCase()` on ASCII letters. */
  function Lower(s: string): (r: string)
    ensures |r| == |s| && forall i :: 0 <= i < |s| ==> r[i] == LowerChar(s[i])
  {
    seq(|s|, i requires 0 <= i < |s| => LowerChar(s[i]))
  }

  predicate AllSlashes(s: string) { forall i :: 0 <= i < |s| ==> s[i] == '/' }

  // ---------------------------------------------------------------------
  // normaliseSegment (scripts/generate-latest-json.mjs:43-46)
  // ---------------------------------------------------------------------

  /** `s.replace(/\/+$/, '')`. */
  function TrimTrailingSlashes(s: string): (r: string)
    decreases |s|
  {
    if |s| > 0 && s[|s| - 1] == '/' then TrimTrailingSlashes(s[..|s| - 1]) else s
  }

  /** The leading part of `/^\/+|\/+$/g`: drop the leading run of '/'. */
  function TrimLeadingSlashes(s: string): (r: string)
    decreases |s|
  {
    if |s| > 0 && s[0] == '/' then TrimLeadingSlashes(s[1..]) else s
  }

  /** `normaliseSegment(value, { isHost })`: a host keeps its leading
      slashes; other segments lose both ends' slashes. */
  function NormaliseSegment(value: string, isHost: bool): string
  {
    if value == "" then ""
    else if isHost then TrimTrailingSlashes(value)
    else TrimTrailingSlashes(TrimLeadingSlashes(value))
  }

  /** Trimming trailing slashes keeps a prefix that does not end in '/' and
      removes only slashes. */
  lemma {:induction false} TrimTrailingSpec(s: string)
    ensures var r := TrimTrailingSlashes(s);
      && |r| <= |s| && r == s[..|r|] && AllSlashes(s[|r|..])
      && (r == [] || r[|r| - 1] != '/')
    decreases |s|
  {
    if |s| > 0 && s[|s| - 1] == '/' {
      var t := s[..|s| - 1];
      TrimTrailingSpec(t);
      var r := TrimTrailingSlashes(t);
      assert s[..|r|] == t[..|r|];
      assert s[|r|..] == t[|r|..] + ['/'];
    } else {
      assert s[|s|..] == [];
    }
  }

  /** Trimming leading slashes keeps a suffix that does not start with '/'
      and removes only slashes. */
  lemma {:induction false} TrimLeadingSpec(s: string)
    ensures var r := TrimLeadingSlashes(s);
      && |r| <= |s| && r == s[|s| - |r|..] && AllSlashes(s[..|s| - |r|])
      && (r == [] || r[0] != '/')
    decreases |s|
  {
    if |s| > 0 && s[0] == '/' {
      var t := s[1..];
      TrimLeadingSpec(t);
      var r := TrimLeadingSlashes(t);
      assert s[|s| - |r|..] == t[|t| - |r|..];
      assert s[..|s| - |r|] == ['/'] + t[..|t| - |r|];
    } else {
      assert s[..0] == [];
    }
  }

  /** In host mode exactly the trailing run of '/' goes; otherwise the
      leading and the trailing run go and the result is the slice between
      them, so interior slashes stay. An empty value gives ''. */
  lemma NormaliseSegmentSpec(value: string, isHost: bool)
    ensures value == "" ==> NormaliseSegment(value, isHost) == ""
    ensures var r := NormaliseSegment(value, isHost);
      isHost ==> && |r| <= |value| && r == value[..|r|] && AllSlashes(value[|r|..])
                 && (r == [] || r[|r| - 1] != '/')
    ensures var r := NormaliseSegment(value, isHost);
      !isHost ==> exists i ::
        && 0 <= i <= i + |r| <= |value| && r == value[i..i + |r|]
        && AllSlashes(value[..i]) && AllSlashes(value[i + |r|..])
        && (r == [] || (r[0] != '/' && r[|r| - 1] != '/'))
  {
    if value != "" {
      if isHost {
        TrimTrailingSpec(value);
      } else {
        var l := TrimLeadingSlashes(value);
        TrimLeadingSpec(value);
        TrimTrailingSpec(l);
        var r := TrimTrailingSlashes(l);
        var i := |value| - |l|;
        assert value[i..i + |r|] == l[..|r|];
        assert value[i + |r|..] == l[|r|..];
        if r != [] {
          assert r[0] == l[0];
        }
      }
    } else if !isHost {
      assert value[0..0] == "" && AllSlashes(value[..0]) && AllSlashes(value[0..]);
    }
  }

  lemma {:induction false} TrimTrailingIdempotent(s: string)
    requires s == [] || s[|s| - 1] != '/'
    ensures TrimTrailingSlashes(s) == s
  {
  }

  lemma {:induction false} TrimLeadingIdempotent(s: string)
    requires s == [] || s[0] != '/'
    ensures TrimLeadingSlashes(s) == s
  {
  }

  /** Normalising twice is normalising once; a non-host result neither
      starts nor ends with '/'. */
  lemma NormaliseSegmentIdempotent(value: string, isHost: bool)
    ensures NormaliseSegment(NormaliseSegment(value, isHost), isHost) == NormaliseSegment(value, isHost)
    ensures var r := NormaliseSegment(value, isHost);
      !isHost && r != [] ==> r[0] != '/' && r[|r| - 1] != '/'
  {
    NormaliseSegmentSpec(value, isHost);
    var r := NormaliseSegment(value, isHost);
    if r != [] {
      if isHost {
        TrimTrailingIdempotent(r);
      } else {
        TrimLeadingIdempotent(r);
        TrimTrailingIdempotent(r);
      }
    }
  }

  // ---------------------------------------------------------------------
  // buildBaseUrl (scripts/generate-latest-json.mjs:48-57)
  // ---------------------------------------------------------------------

  /** `parts.join('/')`. */
  function JoinWithSlash(parts: seq<string>): string
    decreases |parts|
  {
    if parts == [] then "" else if |parts| == 1 then parts[0] else parts[0] + "/" + JoinWithSlash(parts[1..])
  }

  lemma JoinTwo(a: string, b: string)
    ensures JoinWithSlash([a, b]) == a + "/" + b
  {
    assert [a, b][1..] == [b];
  }

  /** The normalised host, then the prefix and the channel if they are
      non-empty after normalising. */
  function BaseUrlParts(releaseHost: string, s3Prefix: string, updateChannel: string): seq<string>
  {
    PartsOf(NormaliseSegment(releaseHost, true), NormaliseSegment(s3Prefix, false),
            NormaliseSegment(updateChannel, false))
  }

  function PartsOf(host: string, prefix: string, channel: string): seq<string>
  {
    [host] + (if prefix != "" then [prefix] else []) + (if channel != "" then [channel] else [])
  }

  function BuildBaseUrl(releaseHost: string, s3Prefix: string, updateChannel: string): string
  {
    JoinWithSlash(BaseUrlParts(releaseHost, s3Prefix, updateChannel))
  }

  lemma JoinParts(host: string, prefix: string, channel: string)
    ensures JoinWithSlash(PartsOf(host, prefix, channel))
         == host + (if prefix != "" then "/" + prefix else "") + (if channel != "" then "/" + channel else "")
  {
    var parts := PartsOf(host, prefix, channel);
    if prefix != "" && channel != "" {
      assert parts == [host, prefix, channel];
      JoinTwo(prefix, channel);
      assert [host, prefix, channel][1..] == [prefix, channel];
    } else if prefix != "" {
      assert parts == [host, prefix];
      JoinTwo(host, prefix);
    } else if channel != "" {
      assert parts == [host, channel];
      JoinTwo(host, channel);
    } else {
      assert parts == [host];
    }
  }

  predicate NoTrailingSlash(s: string) { s == [] || s[|s| - 1] != '/' }

  lemma JoinedNoTrailingSlash(host: string, prefix: string, channel: string)
    requires NoTrailingSlash(host) && NoTrailingSlash(prefix) && NoTrailingSlash(channel)
    ensures var url := host + (if prefix != "" then "/" + prefix else "") + (if channel != "" then "/" + channel else "");
      NoTrailingSlash(url) && StartsWith(url, host)
  {
    var tail := (if prefix != "" then "/" + prefix else "") + (if channel != "" then "/" + channel else "");
    var url := host + tail;
    assert url[..|host|] == host;
    if channel != "" {
      assert url[|url| - 1] == channel[|channel| - 1];
    } else if prefix != "" {
      assert url[|url| - 1] == prefix[|prefix| - 1];
    } else {
      assert url == host;
    }
  }

  /** The base URL is the normalised host followed by "/prefix" and
      "/channel" for the parts that are non-empty, and it never ends with
      '/', so `${baseUrl}/${path}` has exactly one slash at the seam. */
  lemma BaseUrlShape(releaseHost: string, s3Prefix: string, updateChannel: string)
    ensures var host := NormaliseSegment(releaseHost, true);
      var prefix := NormaliseSegment(s3Prefix, false);
      var channel := NormaliseSegment(updateChannel, false);
      var url := BuildBaseUrl(releaseHost, s3Prefix, updateChannel);
      && url == host + (if prefix != "" then "/" + prefix else "") + (if channel != "" then "/" + channel else "")
      && NoTrailingSlash(url)
      && StartsWith(url, host)
  {
    var host := NormaliseSegment(releaseHost, true);
    var prefix := NormaliseSegment(s3Prefix, false);
    var channel := NormaliseSegment(updateChannel, false);
    NormaliseSegmentSpec(releaseHost, true);
    NormaliseSegmentIdempotent(s3Prefix, false);
    NormaliseSegmentIdempotent(updateChannel, false);
    JoinParts(host, prefix, channel);
    JoinedNoTrailingSlash(host, prefix, channel);
  }

  // ---------------------------------------------------------------------
  // Platform matchers (scripts/generate-latest-json.mjs:122-140)
  // ---------------------------------------------------------------------

  datatype Platform = DarwinAarch64 | DarwinX86_64 | WindowsX86_64

  function Label(p: Platform): string
  {
    match p
    case DarwinAarch64 => "darwin-aarch64"
    case DarwinX86_64 => "darwin-x86_64"
    case WindowsX86_64 => "windows-x86_64"
  }

  /** `platformMatchers`, in the order the loop visits them. */
  const PlatformMatchers: seq<Platform> := [DarwinAarch64, DarwinX86_64, WindowsX86_64]

  /** A failure for this platform aborts the run (`label.startsWith('darwin')`). */
  predicate IsFatal(p: Platform)
  {
    StartsWith(Label(p), "darwin")
  }

  /** Index of the last '/' of a path, if any. */
  function LastSlash(path: string): (r: Option<nat>)
    ensures r.Some? ==> r.value < |path| && path[r.value] == '/'
                        && forall j :: r.value < j < |path| ==> path[j] != '/'
    ensures r.None? ==> forall j :: 0 <= j < |path| ==> path[j] != '/'
    decreases |path|
  {
    if path == [] then None
    else if path[|path| - 1] == '/' then Some(|path| - 1)
    else LastSlash(path[..|path| - 1])
  }

  /** `path.basename` of a path without a trailing '/'. */
  function Basename(path: string): string
  {
    match LastSlash(path)
    case None => path
    case Some(i) => path[i + 1..]
  }

  /** `path.dirname` of a path without a trailing '/'. */
  function Dirname(path: string): string
  {
    match LastSlash(path)
    case None => "."
    case Some(i) => if i == 0 then "/" else path[..i]
  }

  /** `path.join(dir, name)` for a directory from `Dirname` and a plain
      file name. */
  function JoinPath(dir: string, name: string): string
  {
    if dir == "." then name else if dir == "/" then "/" + name else dir + "/" + name
  }

  function Matches(p: Platform, file: string): bool
  {
    match p
    case DarwinAarch64 =>
      EndsWith(file, ".app.tar.gz") && Contains(file, "_aarch64") && !EndsWith(file, ".sig")
    case DarwinX86_64 =>
      EndsWith(file, ".app.tar.gz") && Contains(file, "_x86_64") && !EndsWith(file, ".sig")
    case WindowsX86_64 =>
      var base := Lower(Basename(file));
      EndsWith(Lower(file), ".msi") && (Contains(base, "x64") || Contains(base, "x86_64"))
        && !EndsWith(file, ".sig")
  }

  lemma EndsWithLast(s: string, p: string)
    requires EndsWith(s, p) && |p| > 0
    ensures s[|s| - 1] == p[|p| - 1]
  {
    assert s[|s| - |p|..][|p| - 1] == s[|s| - 1];
  }

  lemma WindowsNotFatal()
    ensures IsFatal(DarwinAarch64) && IsFatal(DarwinX86_64) && !IsFatal(WindowsX86_64)
  {
    assert Label(WindowsX86_64)[0] == 'w';
  }

  /** No matcher accepts a signature file, and the explicit `.sig` test is
      implied by the suffix test before it. The darwin matchers need the
      `.app.tar.gz` suffix and their architecture tag; the windows matcher
      needs a case-insensitive `.msi` suffix and `x64` or `x86_64` in the
      base name; no file is both a darwin and a windows artifact. */
  lemma MatcherProperties(p: Platform, file: string)
    ensures Matches(p, file) ==> !EndsWith(file, ".sig")
    ensures Matches(DarwinAarch64, file) <==> EndsWith(file, ".app.tar.gz") && Contains(file, "_aarch64")
    ensures Matches(DarwinX86_64, file) <==> EndsWith(file, ".app.tar.gz") && Contains(file, "_x86_64")
    ensures Matches(WindowsX86_64, file) <==>
              EndsWith(Lower(file), ".msi")
              && (Contains(Lower(Basename(file)), "x64") || Contains(Lower(Basename(file)), "x86_64"))
    ensures IsFatal(p) ==> Matches(p, file) ==> !Matches(WindowsX86_64, file)
  {
    WindowsNotFatal();
    if EndsWith(file, ".app.tar.gz") {
      EndsWithLast(file, ".app.tar.gz");
      if EndsWith(file, ".sig") { EndsWithLast(file, ".sig"); }
      if EndsWith(Lower(file), ".msi") { EndsWithLast(Lower(file), ".msi"); }
    }
    if EndsWith(Lower(file), ".msi") {
      EndsWithLast(Lower(file), ".msi");
      if EndsWith(file, ".sig") { EndsWithLast(file, ".sig"); }
    }
  }

  // ---------------------------------------------------------------------
  // ensureFile, signaturePathFor, relativeUrlPath (scripts/generate-latest-json.mjs:59-92)
  // ---------------------------------------------------------------------

  datatype Error =
    | ArtifactsEmpty
    | ArtifactNotFound(platformLabel: string)
    | MissingSignature(file: string)
    | NoPlatformArtifacts

  /** `files.find(accept)`, as the index of the first accepted file. */
  function FindFirst(accept: string -> bool, files: seq<string>): (r: Option<nat>)
    ensures r.Some? ==> r.value < |files| && accept(files[r.value])
                        && forall j :: 0 <= j < r.value ==> !accept(files[j])
    ensures r.None? ==> forall j :: 0 <= j < |files| ==> !accept(files[j])
    decreases |files|
  {
    if files == [] then None
    else if accept(files[0]) then Some(0)
    else match FindFirst(accept, files[1..])
      case None => None
      case Some(i) => Some(i + 1)
  }

  /** `ensureFile`: the first file in list order the matcher accepts, or
      the "unable to find" error naming the platform. */
  function EnsureFile(p: Platform, files: seq<string>): (r: Result<string, Error>)
    ensures r.Ok? <==> exists j :: 0 <= j < |files| && Matches(p, files[j])
    ensures r.Ok? ==> exists j :: 0 <= j < |files| && files[j] == r.value && Matches(p, files[j])
                        && forall k :: 0 <= k < j ==> !Matches(p, files[k])
    ensures r.Err? ==> r.error == ArtifactNotFound(Label(p))
  {
    match FindFirst(f => Matches(p, f), files)
    case None => Err(ArtifactNotFound(Label(p)))
    case Some(i) => Ok(files[i])
  }

  lemma EndsWithAppended(s: string, suffix: string)
    ensures EndsWith(s + suffix, suffix)
  {
    assert (s + suffix)[|s|..] == suffix;
  }

  lemma JoinPathEndsWith(dir: string, base: string, suffix: string)
    ensures EndsWith(JoinPath(dir, base + suffix), suffix)
  {
    var j := JoinPath(dir, base + suffix);
    var front := if dir == "." then base else if dir == "/" then "/" + base else dir + "/" + base;
    assert j == front + suffix;
    EndsWithAppended(front, suffix);
  }

  /** `signaturePathFor`: `file.sig` if it is in the set, else the same
      name rebuilt from the directory and base name, else an error. */
  function SignaturePathFor(filePath: string, filesSet: set<string>): (r: Result<string, Error>)
    ensures r.Ok? ==> r.value in filesSet && EndsWith(r.value, ".sig")
    ensures r.Ok? <==> filePath + ".sig" in filesSet
                       || JoinPath(Dirname(filePath), Basename(filePath) + ".sig") in filesSet
    ensures filePath + ".sig" in filesSet ==> r == Ok(filePath + ".sig")
    ensures filePath + ".sig" !in filesSet
            && JoinPath(Dirname(filePath), Basename(filePath) + ".sig") in filesSet ==>
              r == Ok(JoinPath(Dirname(filePath), Basename(filePath) + ".sig"))
    ensures r.Err? ==> r.error == MissingSignature(filePath)
  {
    var candidate := filePath + ".sig";
    var alternative := JoinPath(Dirname(filePath), Basename(filePath) + ".sig");
    EndsWithAppended(filePath, ".sig");
    JoinPathEndsWith(Dirname(filePath), Basename(filePath), ".sig");
    if candidate in filesSet then Ok(candidate)
    else if alternative in filesSet then Ok(alternative)
    else Err(MissingSignature(filePath))
  }

  /** The fallback name differs from the first candidate only for a path
      that `path.join` normalises, such as one starting with `./`; for the
      absolute paths of the artifact listing the two coincide. */
  lemma SignatureFallback(filePath: string)
    ensures !StartsWith(filePath, "./") && !StartsWith(filePath, "//") ==>
              JoinPath(Dirname(filePath), Basename(filePath) + ".sig") == filePath + ".sig"
    ensures filePath == "./a" ==> JoinPath(Dirname(filePath), Basename(filePath) + ".sig") == "a.sig"
  {
    if !StartsWith(filePath, "./") && !StartsWith(filePath, "//") {
      match LastSlash(filePath)
      case None =>
      case Some(i) =>
        if i == 0 {
          assert filePath == "/" + filePath[1..];
        } else {
          assert filePath == filePath[..i] + "/" + filePath[i + 1..];
          if i == 1 {
            assert filePath[..2] == [filePath[0], '/'];
          }
          assert filePath[..i] != "." && filePath[..i] != "/";
        }
    }
    if filePath == "./a" {
      assert LastSlash(filePath) == Some(1);
      assert filePath[..1] == ".";
    }
  }

  /** `s.split(sep).join('/')`: every separator becomes '/'. */
  function ToUrlSeparators(s: string, sep: char): (r: string)
    ensures |r| == |s|
    ensures forall i :: 0 <= i < |s| ==> r[i] == (if s[i] == sep then '/' else s[i])
  {
    seq(|s|, i requires 0 <= i < |s| => if s[i] == sep then '/' else s[i])
  }

  /** The directory with one trailing separator: `path.resolve` leaves a
      separator at the end only for the root. */
  function DirPrefix(dir: string, sep: char): (r: string)
    ensures |r| > 0 && r[|r| - 1] == sep && StartsWith(r, dir) && |r| <= |dir| + 1
    ensures |dir| > 0 && dir[|dir| - 1] == sep ==> r == dir
    ensures !(|dir| > 0 && dir[|dir| - 1] == sep) ==> r == dir + [sep]
  {
    if |dir| > 0 && dir[|dir| - 1] == sep then dir else dir + [sep]
  }

  predicate UnderDir(dir: string, sep: char, file: string)
  {
    StartsWith(file, DirPrefix(dir, sep))
  }

  /** `relativeUrlPath(file)` for a file inside the artifacts directory:
      `path.relative` drops the directory and its separator, and the rest
      has its separators turned into '/'. */
  function RelativeUrlPath(dir: string, sep: char, file: string): (r: string)
    requires UnderDir(dir, sep, file)
    ensures r == ToUrlSeparators(file[|DirPrefix(dir, sep)|..], sep)
    ensures |r| == |file| - |DirPrefix(dir, sep)|
    ensures sep != '/' ==> forall i :: 0 <= i < |r| ==> r[i] != sep
    ensures sep == '/' ==> DirPrefix(dir, sep) + r == file
  {
    var k := |DirPrefix(dir, sep)|;
    var r := ToUrlSeparators(file[k..], sep);
    assert sep == '/' ==> r == file[k..];
    assert file == file[..k] + file[k..];
    r
  }

  // ---------------------------------------------------------------------
  // makePlatformEntry and the collection loop (scripts/generate-latest-json.mjs:94-174)
  // ---------------------------------------------------------------------

  /** A platform entry: the artifact, its signature file (the manifest
      holds that file's trimmed contents) and the download URL. */
  datatype PlatformEntry = PlatformEntry(artifactPath: string, signaturePath: string, url: string)

  /** The artifact listing: the files under the artifacts directory, and
      `filesSet`, which is `new Set(files)`. */
  datatype Listing = Listing(files: seq<string>, filesSet: set<string>, dir: string, sep: char)
  {
    predicate Valid()
    {
      && filesSet == (set f | f in files)
      && forall f :: f in files ==> UnderDir(dir, sep, f)
    }
  }

  /** `makePlatformEntry`: find the artifact, then its signature. */
  function MakePlatformEntry(p: Platform, l: Listing, baseUrl: string): (r: Result<PlatformEntry, Error>)
    requires l.Valid()
  {
    match EnsureFile(p, l.files)
    case Err(e) => Err(e)
    case Ok(a) =>
      match SignaturePathFor(a, l.filesSet)
      case Err(e) => Err(e)
      case Ok(sig) => Ok(PlatformEntry(a, sig, baseUrl + "/" + RelativeUrlPath(l.dir, l.sep, a)))
  }

  /** A built entry names the first matching artifact of the listing, a
      signature file of the listing, and the artifact's URL under the base
      URL; a failure is the missing artifact or the missing signature. */
  lemma MakePlatformEntrySpec(p: Platform, l: Listing, baseUrl: string)
    requires l.Valid()
    ensures var r := MakePlatformEntry(p, l, baseUrl);
      && (r.Ok? ==> && r.value.signaturePath in l.filesSet && r.value.signaturePath in l.files
                    && EndsWith(r.value.signaturePath, ".sig")
                    && (exists j :: && 0 <= j < |l.files| && l.files[j] == r.value.artifactPath
                                     && Matches(p, l.files[j])
                                     && forall k :: 0 <= k < j ==> !Matches(p, l.files[k]))
                    && r.value.url == baseUrl + "/" + RelativeUrlPath(l.dir, l.sep, r.value.artifactPath))
      && (r.Err? ==> r.error == ArtifactNotFound(Label(p)) || r.error == MissingSignature(EnsureFile(p, l.files).value))
      && (r.Err? <==> EnsureFile(p, l.files).Err? || SignaturePathFor(EnsureFile(p, l.files).value, l.filesSet).Err?)
  {
  }

  /** The loop over `ms`, as a left fold over the outcome `entry(p)` of
      `makePlatformEntry` for each platform: a failure for a fatal (darwin)
      platform aborts with its error; a failing windows entry is skipped; a
      successful one is stored under its label. */
  function Collect(ms: seq<Platform>, entry: Platform -> Result<PlatformEntry, Error>)
    : Result<map<string, PlatformEntry>, Error>
    decreases |ms|
  {
    if ms == [] then Ok(map[])
    else
      match Collect(ms[..|ms| - 1], entry)
      case Err(e) => Err(e)
      case Ok(platforms) =>
        var p := ms[|ms| - 1];
        match entry(p)
        case Ok(e) => Ok(platforms[Label(p) := e])
        case Err(e) => if IsFatal(p) then Err(e) else Ok(platforms)
  }

  /** Once the loop has aborted it stays aborted. */
  lemma {:induction false} CollectAbortSticks(ms: seq<Platform>, k: nat,
                                              entry: Platform -> Result<PlatformEntry, Error>)
    requires k <= |ms| && Collect(ms[..k], entry).Err?
    ensures Collect(ms, entry) == Collect(ms[..k], entry)
    decreases |ms| - k
  {
    if k < |ms| {
      var n := |ms|;
      assert ms[..n][..n - 1] == ms[..n - 1];
      assert ms[..n - 1][..k] == ms[..k];
      CollectAbortSticks(ms[..n - 1], k, entry);
      assert ms[..n] == ms;
    } else {
      assert ms[..k] == ms;
    }
  }

  /** The three platforms' outcome: a failed darwin entry aborts with its
      error (aarch64 first), a failed windows entry is skipped, and otherwise
      both darwin entries are present. */
  lemma CollectOutcome(entry: Platform -> Result<PlatformEntry, Error>)
    ensures var a, x, w := entry(DarwinAarch64), entry(DarwinX86_64), entry(WindowsX86_64);
      Collect(PlatformMatchers, entry) ==
        if a.Err? then Err(a.error)
        else if x.Err? then Err(x.error)
        else if w.Err? then Ok(map["darwin-aarch64" := a.value, "darwin-x86_64" := x.value])
        else Ok(map["darwin-aarch64" := a.value, "darwin-x86_64" := x.value, "windows-x86_64" := w.value])
  {
    var ms := PlatformMatchers;
    assert ms[..3] == ms;
    assert ms[..3][..2] == [DarwinAarch64, DarwinX86_64];
    assert ms[..2][..1] == [DarwinAarch64];
    assert [DarwinAarch64][..0] == [];
    WindowsNotFatal();
  }

  /** What the outcome means for the dictionary's keys. */
  lemma CollectKeys(entry: Platform -> Result<PlatformEntry, Error>)
    ensures var c := Collect(PlatformMatchers, entry);
      && (c.Ok? <==> entry(DarwinAarch64).Ok? && entry(DarwinX86_64).Ok?)
      && (c.Ok? ==> && "darwin-aarch64" in c.value && "darwin-x86_64" in c.value
                    && |c.value| > 0
                    && (("windows-x86_64" in c.value) <==> entry(WindowsX86_64).Ok?))
  {
    CollectOutcome(entry);
    var c := Collect(PlatformMatchers, entry);
    if c.Ok? {
      assert "darwin-aarch64" in c.value;
      assert c.value != map[];
    }
  }

  /** The per-platform outcomes for a listing and base URL. */
  function EntryFor(l: Listing, baseUrl: string): Platform -> Result<PlatformEntry, Error>
    requires l.Valid()
  {
    p => MakePlatformEntry(p, l, baseUrl)
  }

  lemma EntryForIsMakePlatformEntry(l: Listing, baseUrl: string, p: Platform)
    requires l.Valid()
    ensures EntryFor(l, baseUrl)(p) == MakePlatformEntry(p, l, baseUrl)
  {
  }

  /** The manifest: version, platform entries (the script also records each
      artifact's SHA-256 and the signature file's contents) and the release
      notes when they are non-empty. */
  datatype Latest = Latest(version: string, platforms: map<string, PlatformEntry>, notes: Option<string>)

  /** `main` after the listing: abort on an empty listing, collect the
      platforms, abort if there are none, else build the manifest. */
  function LatestFrom(listingEmpty: bool, entry: Platform -> Result<PlatformEntry, Error>,
                      version: string, releaseNotes: string): Result<Latest, Error>
  {
    if listingEmpty then Err(ArtifactsEmpty)
    else
      match Collect(PlatformMatchers, entry)
      case Err(e) => Err(e)
      case Ok(platforms) =>
        if |platforms| == 0 then Err(NoPlatformArtifacts)
        else Ok(Latest(version, platforms, if releaseNotes != "" then Some(releaseNotes) else None))
  }

  /** What `main` produces for a listing and the trimmed environment. */
  function LatestFor(l: Listing, releaseHost: string, s3Prefix: string, updateChannel: string,
                     version: string, releaseNotes: string): Result<Latest, Error>
    requires l.Valid()
  {
    LatestFrom(l.files == [], EntryFor(l, BuildBaseUrl(releaseHost, s3Prefix, updateChannel)),
               version, releaseNotes)
  }

  /** The run's outcome, given each platform's `makePlatformEntry` outcome:
      an empty listing fails; otherwise the run fails exactly when a darwin
      entry fails, with the first such error; a manifest always lists both
      darwin platforms, lists windows exactly when its entry succeeded, and
      has notes exactly when the release notes are non-empty. */
  lemma LatestOutcome(listingEmpty: bool, entry: Platform -> Result<PlatformEntry, Error>,
                      version: string, releaseNotes: string)
    ensures var r := LatestFrom(listingEmpty, entry, version, releaseNotes);
      && (listingEmpty ==> r == Err(ArtifactsEmpty))
      && (!listingEmpty ==> (r.Ok? <==> entry(DarwinAarch64).Ok? && entry(DarwinX86_64).Ok?))
      && (!listingEmpty && entry(DarwinAarch64).Err? ==> r == Err(entry(DarwinAarch64).error))
      && (!listingEmpty && entry(DarwinAarch64).Ok? && entry(DarwinX86_64).Err? ==>
            r == Err(entry(DarwinX86_64).error))
      && (r.Ok? ==> && "darwin-aarch64" in r.value.platforms && "darwin-x86_64" in r.value.platforms
                    && r.value.platforms["darwin-aarch64"] == entry(DarwinAarch64).value
                    && r.value.platforms["darwin-x86_64"] == entry(DarwinX86_64).value
                    && (("windows-x86_64" in r.value.platforms) <==> entry(WindowsX86_64).Ok?)
                    && r.value.version == version
                    && (r.value.notes.Some? <==> releaseNotes != "")
                    && (r.value.notes.Some? ==> r.value.notes.value == releaseNotes))
  {
    CollectKeys(entry);
    CollectOutcome(entry);
  }

  /** For a real listing the "no platform artifacts" abort is never
      reached: a manifest that gets that far lists both darwin platforms,
      and `makePlatformEntry` never fails with that error itself. */
  lemma NoPlatformAbortUnreachable(l: Listing, releaseHost: string, s3Prefix: string,
                                   updateChannel: string, version: string, releaseNotes: string)
    requires l.Valid()
    ensures LatestFor(l, releaseHost, s3Prefix, updateChannel, version, releaseNotes) != Err(NoPlatformArtifacts)
  {
    var baseUrl := BuildBaseUrl(releaseHost, s3Prefix, updateChannel);
    var entry := EntryFor(l, baseUrl);
    LatestOutcome(l.files == [], entry, version, releaseNotes);
    EntryForIsMakePlatformEntry(l, baseUrl, DarwinAarch64);
    EntryForIsMakePlatformEntry(l, baseUrl, DarwinX86_64);
    MakePlatformEntrySpec(DarwinAarch64, l, baseUrl);
    MakePlatformEntrySpec(DarwinX86_64, l, baseUrl);
  }

  /** The loop of `main` over `platformMatchers` filling the `platforms`
      dictionary: a failed entry is skipped, or aborts the run when the
      platform is fatal. */
  method CollectPlatforms(entry: Platform -> Result<PlatformEntry, Error>)
    returns (r: Result<map<string, PlatformEntry>, Error>)
    ensures r == Collect(PlatformMatchers, entry)
  {
    var platforms: map<string, PlatformEntry> := map[];
    var i := 0;
    while i < |PlatformMatchers|
      invariant 0 <= i <= |PlatformMatchers|
      invariant Collect(PlatformMatchers[..i], entry) == Ok(platforms)
    {
      var p := PlatformMatchers[i];
      assert PlatformMatchers[..i + 1][..i] == PlatformMatchers[..i];
      var result := entry(p);
      if result.Ok? {
        platforms := platforms[Label(p) := result.value];
      } else if StartsWith(Label(p), "darwin") {
        CollectAbortSticks(PlatformMatchers, i + 1, entry);
        return Err(result.error);
      }
      i := i + 1;
    }
    assert PlatformMatchers[..i] == PlatformMatchers;
    r := Ok(platforms);
  }

  /** `main` over the listing and the trimmed environment. */
  method GenerateLatest(l: Listing, releaseHost: string, s3Prefix: string, updateChannel: string,
                        version: string, releaseNotes: string) returns (r: Result<Latest, Error>)
    requires l.Valid()
    ensures r == LatestFor(l, releaseHost, s3Prefix, updateChannel, version, releaseNotes)
  {
    if |l.files| == 0 {
      return Err(ArtifactsEmpty);
    }
    var baseUrl := BuildBaseUrl(releaseHost, s3Prefix, updateChannel);
    var collected := CollectPlatforms(EntryFor(l, baseUrl));
    if collected.Err? {
      return Err(collected.error);
    }
    var platforms := collected.value;
    if |platforms| == 0 {
      return Err(NoPlatformArtifacts);
    }
    var notes := if releaseNotes != "" then Some(releaseNotes) else None;
    r := Ok(Latest(version, platforms, notes));
  }
}
