/** The Python vendoring script: a `Library` per dependency entry, its
    download with the network and the XML/zip readers as parameters, the
    translation of its POM dependencies into Soong module names, and the
    rendered Soong stanzas. */
module Vendoring {
  import opened Wrappers
  import opened Seqs
  import opened Strs
  import opened Libs
  import Blueprint

  /** A file-system path relative to the script directory, as its list of
      components. */
  type Path = seq<string>

  const LibsDir: Path := ["libs"]

  datatype Artifact = Aar | Jar

  /** A (groupId, artifactId) pair of a POM dependency. */
  datatype Coord = Coord(group: string, artifact: string)

  datatype Library = Library(
    spec: Spec,
    targetName: string,
    repoUrl: string,
    dependencies: seq<Coord>,
    sdkVersion: int,
    minSdkVersion: int,
    file: Option<Artifact>)

  /** `project_module`, the name the platform prebuilts use. */
  function RawName(group: string, artifact: string): string {
    group + "_" + artifact
  }

  /** The Soong module name of a dependency entry: its alias when it has one,
      otherwise the raw name, prefixed with the application name unless the
      entry is a platform prebuilt. */
  function TargetName(s: Spec): (r: string)
    ensures RawName(s.group, s.artifact) in AospAliases ==> r == AospAliases[RawName(s.group, s.artifact)]
    ensures RawName(s.group, s.artifact) !in AospAliases && s.repo != SdkRepo ==>
      r == AppName + "_" + RawName(s.group, s.artifact)
    ensures RawName(s.group, s.artifact) !in AospAliases && s.repo == SdkRepo ==>
      r == RawName(s.group, s.artifact)
    ensures Alias(r) == r
  {
    var raw := RawName(s.group, s.artifact);
    if raw in AospAliases then AliasIdempotent(raw); AospAliases[raw]
    else if s.repo != SdkRepo then AppPrefixedNotAliased(raw); AppName + "_" + raw
    else raw
  }

  lemma {:induction false} AppPrefixedNotAliased(rest: string)
    ensures AppName + "_" + rest !in AospAliases
  {
    var n := AppName + "_" + rest;
    assert n[0] == 'S';
    assert n != "androidx.constraintlayout_constraintlayout" by { assert "androidx.constraintlayout_constraintlayout"[0] == 'a'; }
    assert n != "com.google.auto.value_auto-value-annotations" by { assert "com.google.auto.value_auto-value-annotations"[0] == 'c'; }
    assert n != "com.google.errorprone_error_prone_annotations" by { assert "com.google.errorprone_error_prone_annotations"[0] == 'c'; }
    assert n != "com.google.guava_listenablefuture" by { assert "com.google.guava_listenablefuture"[0] == 'c'; }
    assert n != "org.jetbrains_annotations" by { assert "org.jetbrains_annotations"[0] == 'o'; }
    assert n != "org.jetbrains.kotlin_kotlin-stdlib" by { assert "org.jetbrains.kotlin_kotlin-stdlib"[0] == 'o'; }
    assert n != "org.jetbrains.kotlin_kotlin-stdlib-jdk7" by { assert "org.jetbrains.kotlin_kotlin-stdlib-jdk7"[0] == 'o'; }
    assert n != "org.jetbrains.kotlin_kotlin-stdlib-jdk8" by { assert "org.jetbrains.kotlin_kotlin-stdlib-jdk8"[0] == 'o'; }
    assert n != "org.jetbrains.kotlinx_kotlinx-coroutines-android" by { assert "org.jetbrains.kotlinx_kotlinx-coroutines-android"[0] == 'o'; }
    assert n != "org.jetbrains.kotlinx_kotlinx-coroutines-core" by { assert "org.jetbrains.kotlinx_kotlinx-coroutines-core"[0] == 'o'; }
  }

  /** `Library.__init__`: a `KeyError` for a repository the table lacks. */
  function NewLibrary(s: Spec): (r: Result<Library>)
    ensures r.Ok? <==> s.repo in Repositories
    ensures r.Ok? ==> r.value.spec == s && r.value.repoUrl == Repositories[s.repo]
    ensures r.Ok? ==> r.value.targetName == TargetName(s)
    ensures r.Ok? ==> r.value.dependencies == [] && r.value.file == None
    ensures r.Ok? ==> r.value.sdkVersion == DefaultSdkVersion && r.value.minSdkVersion == DefaultMinSdkVersion
  {
    if s.repo !in Repositories then Err("KeyError: " + s.repo)
    else Ok(Library(s, TargetName(s), Repositories[s.repo], [], DefaultSdkVersion, DefaultMinSdkVersion, None))
  }

  /** `group:artifact:version`. */
  function GradleName(s: Spec): string {
    s.group + ":" + s.artifact + ":" + s.version
  }

  /** The Gradle coordinate splits back into its three parts when none of
      them contains a colon. */
  lemma {:induction false} GradleNameSplits(s: Spec)
    requires ':' !in s.group && ':' !in s.artifact && ':' !in s.version
    ensures Split(GradleName(s), ':') == [s.group, s.artifact, s.version]
  {
    var parts := [s.group, s.artifact, s.version];
    assert Join(parts, [':']) == GradleName(s) by {
      assert Join(parts[1..], [':']) == s.artifact + ":" + s.version by {
        assert parts[1..][1..] == [s.version];
      }
    }
    SplitJoin(parts, ':');
  }

  predicate NonEmpty(c: string) {
    |c| > 0
  }

  /** `Path(*group.split('.')) / artifact / version`; pathlib drops empty
      components. */
  function RelativePath(s: Spec): (r: Path)
    ensures forall i :: 0 <= i < |r| ==> |r[i]| > 0
  {
    Filter(Split(s.group, '.') + [s.artifact, s.version], NonEmpty)
  }

  /** The text of a path as pathlib prints it. */
  function PathText(p: Path): string {
    if |p| == 0 then "." else Join(p, "/")
  }

  /** The directory a library is stored in. */
  function LibraryDir(s: Spec): Path {
    LibsDir + RelativePath(s)
  }

  /** `repo/group-with-slashes/artifact/version`. */
  function ModuleUrl(lib: Library): string {
    lib.repoUrl + "/" + ReplaceChar(lib.spec.group, '.', "/") + "/" + lib.spec.artifact + "/" + lib.spec.version
  }

  lemma {:induction false} JoinAppend(a: seq<string>, b: seq<string>, sep: string)
    requires |a| > 0 && |b| > 0
    ensures Join(a + b, sep) == Join(a, sep) + sep + Join(b, sep)
    decreases |a|
  {
    if |a| == 1 {
      assert (a + b)[1..] == b;
    } else {
      assert (a + b)[1..] == a[1..] + b;
      JoinAppend(a[1..], b, sep);
    }
  }

  /** Without empty components the stored path is the group's components
      followed by the artifact and the version. */
  lemma {:induction false} RelativePathPlain(s: Spec)
    requires forall i :: 0 <= i < |Split(s.group, '.')| ==> |Split(s.group, '.')[i]| > 0
    requires |s.artifact| > 0 && |s.version| > 0
    ensures RelativePath(s) == Split(s.group, '.') + [s.artifact, s.version]
  {
    var parts := Split(s.group, '.');
    var tail := [s.artifact, s.version];
    var all := parts + tail;
    forall i | 0 <= i < |all| ensures NonEmpty(all[i]) {
      if i < |parts| { assert all[i] == parts[i]; } else { assert all[i] == tail[i - |parts|]; }
    }
    FilterAll(all, NonEmpty);
  }

  /** When no component is empty, the download URL ends with the same path
      the library is stored under. */
  lemma {:induction false} UrlMatchesPath(lib: Library)
    requires forall i :: 0 <= i < |Split(lib.spec.group, '.')| ==> |Split(lib.spec.group, '.')[i]| > 0
    requires |lib.spec.artifact| > 0 && |lib.spec.version| > 0
    ensures ModuleUrl(lib) == lib.repoUrl + "/" + PathText(RelativePath(lib.spec))
  {
    var s := lib.spec;
    var parts := Split(s.group, '.');
    var tail := [s.artifact, s.version];
    var dots := ReplaceChar(s.group, '.', "/");
    calc {
      PathText(RelativePath(s));
    == { RelativePathPlain(s); }
      Join(parts + tail, "/");
    == { JoinAppend(parts, tail, "/"); }
      Join(parts, "/") + "/" + Join(tail, "/");
    == { ReplaceCharIsSplitJoin(s.group, '.', '/'); assert tail[1..] == [s.version]; }
      dots + "/" + (s.artifact + "/" + s.version);
    }
    assert ModuleUrl(lib) == lib.repoUrl + "/" + (dots + "/" + (s.artifact + "/" + s.version));
  }

  function AarFileName(s: Spec): string {
    s.artifact + "-" + s.version + ".aar"
  }

  function JarFileName(s: Spec): string {
    s.artifact + "-" + s.version + ".jar"
  }

  function PomFileName(s: Spec): string {
    s.artifact + "-" + s.version + ".pom"
  }

  /** The three artefact names differ only in their extension. */
  lemma {:induction false} FileNamesDistinct(s: Spec)
    ensures AarFileName(s) != JarFileName(s) && JarFileName(s) != PomFileName(s) && AarFileName(s) != PomFileName(s)
  {
    var base := s.artifact + "-" + s.version;
    assert AarFileName(s)[|base| + 1] == 'a';
    assert JarFileName(s)[|base| + 1] == 'j';
    assert PomFileName(s)[|base| + 1] == 'p';
  }

  // ---------------------------------------------------------------------
  // Download

  /** An HTTP answer: status code and body. */
  datatype Response = Response(status: int, content: seq<bv8>)

  /** A `dependency` element of a POM: group, artifact and the text of its
      `scope` element when there is one. */
  datatype PomEntry = PomEntry(group: string, artifact: string, scope: Option<string>)

  /** The outside world `download` talks to: the HTTP client, the POM reader
      (every `dependency` under any `dependencies` element, in document
      order; an error when the POM is not well-formed XML or a dependency
      has no `groupId` or no `artifactId` element) and the reader of the
      `uses-sdk` attributes of the manifest in an AAR (`None` when the
      element is missing). */
  datatype World = World(
    fetch: string -> Response,
    pomEntries: seq<bv8> -> Result<seq<PomEntry>>,
    usesSdk: seq<bv8> -> Option<map<string, string>>)

  /** The directories that exist and the URLs fetched, in order. */
  datatype Fetched = Fetched(lib: Library, dirs: set<Path>, urls: seq<string>)

  predicate KeptScope(e: PomEntry) {
    e.scope.None? || e.scope.value == "compile"
  }

  /** The POM dependencies `download` records: an entry is dropped exactly
      when it has a scope other than `compile`; order and duplicates are
      kept. */
  function CompileDeps(entries: seq<PomEntry>): (r: seq<Coord>)
    ensures |r| <= |entries|
    decreases |entries|
  {
    if |entries| == 0 then []
    else
      var e := entries[0];
      (if KeptScope(e) then [Coord(e.group, e.artifact)] else []) + CompileDeps(entries[1..])
  }

  /** The recorded dependencies are, position by position, the entries the
      scope filter keeps. */
  lemma {:induction false} CompileDepsIsFilter(entries: seq<PomEntry>)
    ensures var kept := Filter(entries, KeptScope);
      |CompileDeps(entries)| == |kept| &&
      forall i :: 0 <= i < |kept| ==> CompileDeps(entries)[i] == Coord(kept[i].group, kept[i].artifact)
    decreases |entries|
  {
    if |entries| > 0 {
      var e := entries[0];
      var rest := entries[1..];
      CompileDepsIsFilter(rest);
      var kr := Filter(rest, KeptScope);
      var cr := CompileDeps(rest);
      if KeptScope(e) {
        assert Filter(entries, KeptScope) == [e] + kr;
        assert CompileDeps(entries) == [Coord(e.group, e.artifact)] + cr;
      } else {
        assert Filter(entries, KeptScope) == kr;
        assert CompileDeps(entries) == cr;
      }
    }
  }

  /** Every non-empty prefix of a path: what `mkdir(parents=True)` leaves
      existing. */
  function Prefixes(p: Path): (r: set<Path>)
    ensures p in r || |p| == 0
    ensures forall q :: q in r ==> 0 < |q| <= |p| && q == p[..|q|]
  {
    assert |p| > 0 ==> p[..|p|] == p;
    set k | 1 <= k <= |p| :: p[..k]
  }

  const TargetSdkAttr: string := "targetSdkVersion"
  const MinSdkAttr: string := "minSdkVersion"

  /** `int(attrib.get(key, default))`. */
  function AttrInt(attrs: map<string, string>, key: string, default: int): (r: Result<int>)
    ensures key !in attrs ==> r == Ok(default)
    ensures key in attrs ==> (r.Ok? <==> ParseInt(attrs[key]).Some?)
    ensures key in attrs && r.Ok? ==> r.value == ParseInt(attrs[key]).value
  {
    if key !in attrs then Ok(default)
    else match ParseInt(attrs[key])
      case Some(v) => Ok(v)
      case None => Err("ValueError: invalid literal for int()")
  }

  /** Platform levels read from an AAR's manifest. */
  function ReadLevels(attrs: Option<map<string, string>>): (r: Result<(int, int)>)
    ensures attrs.None? ==> r.Err?
    ensures attrs.Some? && TargetSdkAttr !in attrs.value && MinSdkAttr !in attrs.value ==>
      r == Ok((DefaultSdkVersion, DefaultMinSdkVersion))
  {
    match attrs
    case None => Err("AttributeError: no uses-sdk element")
    case Some(a) =>
      var target :- AttrInt(a, TargetSdkAttr, DefaultSdkVersion);
      var min :- AttrInt(a, MinSdkAttr, DefaultMinSdkVersion);
      Ok((target, min))
  }

  function AarUrl(lib: Library): string { ModuleUrl(lib) + "/" + AarFileName(lib.spec) }
  function JarUrl(lib: Library): string { ModuleUrl(lib) + "/" + JarFileName(lib.spec) }
  function PomUrl(lib: Library): string { ModuleUrl(lib) + "/" + PomFileName(lib.spec) }

  /** What the three requests of `download` leave behind: which artefact was
      written, the AAR bytes, the POM bytes and the URLs fetched in order. */
  datatype Files = Files(file: Artifact, aar: seq<bv8>, pom: seq<bv8>, urls: seq<string>)

  /** The AAR is tried first; only when it is not answered with 200 is the
      JAR fetched, and it must then be answered with 200; the POM must be
      answered with 200. */
  function FetchFiles(lib: Library, w: World): (r: Result<Files>)
    ensures r.Ok? <==>
      (w.fetch(AarUrl(lib)).status == 200 || w.fetch(JarUrl(lib)).status == 200) &&
      w.fetch(PomUrl(lib)).status == 200
    ensures r.Ok? ==> (r.value.file == Aar <==> w.fetch(AarUrl(lib)).status == 200)
    ensures r.Ok? && r.value.file == Aar ==> r.value.urls == [AarUrl(lib), PomUrl(lib)]
    ensures r.Ok? && r.value.file == Jar ==> r.value.urls == [AarUrl(lib), JarUrl(lib), PomUrl(lib)]
    ensures r.Ok? ==> r.value.pom == w.fetch(PomUrl(lib)).content && r.value.aar == w.fetch(AarUrl(lib)).content
  {
    var aar := w.fetch(AarUrl(lib));
    if aar.status != 200 && w.fetch(JarUrl(lib)).status != 200 then Err("AssertionError: JAR download failed")
    else
      var pom := w.fetch(PomUrl(lib));
      if pom.status != 200 then Err("AssertionError: POM download failed")
      else if aar.status == 200 then Ok(Files(Aar, aar.content, pom.content, [AarUrl(lib), PomUrl(lib)]))
      else Ok(Files(Jar, aar.content, pom.content, [AarUrl(lib), JarUrl(lib), PomUrl(lib)]))
  }

  /** The library after its files are in place: the recorded dependencies,
      and the platform levels from the AAR manifest or the defaults for a
      JAR. A POM that does not parse fails before the manifest is read. */
  function Record(lib: Library, f: Files, w: World): (r: Result<Library>)
    ensures r.Ok? ==> r.value.spec == lib.spec && r.value.targetName == lib.targetName && r.value.repoUrl == lib.repoUrl
    ensures r.Ok? ==> r.value.file == Some(f.file)
    ensures r.Ok? ==> w.pomEntries(f.pom).Ok? && r.value.dependencies == CompileDeps(w.pomEntries(f.pom).value)
    ensures f.file == Jar ==> (r.Ok? <==> w.pomEntries(f.pom).Ok?)
    ensures f.file == Jar && r.Ok? ==> r.value.sdkVersion == DefaultSdkVersion && r.value.minSdkVersion == DefaultMinSdkVersion
    ensures f.file == Aar ==> (r.Ok? <==> w.pomEntries(f.pom).Ok? && ReadLevels(w.usesSdk(f.aar)).Ok?)
    ensures f.file == Aar && r.Ok? ==> (r.value.sdkVersion, r.value.minSdkVersion) == ReadLevels(w.usesSdk(f.aar)).value
  {
    var entries :- w.pomEntries(f.pom);
    var deps := CompileDeps(entries);
    match f.file
    case Jar =>
      Ok(lib.(dependencies := deps, sdkVersion := DefaultSdkVersion, minSdkVersion := DefaultMinSdkVersion, file := Some(Jar)))
    case Aar =>
      match ReadLevels(w.usesSdk(f.aar))
      case Err(m) => Err(m)
      case Ok(levels) =>
        Ok(lib.(dependencies := deps, sdkVersion := levels.0, minSdkVersion := levels.1, file := Some(Aar)))
  }

  /** `Library.download`. A prebuilt does nothing. Otherwise the library
      directory is created, failing when it already exists, and then the
      files are fetched and read. */
  function Download(lib: Library, dirs: set<Path>, w: World): (r: Result<Fetched>)
    ensures lib.spec.repo == SdkRepo ==> r == Ok(Fetched(lib, dirs, []))
    ensures lib.spec.repo != SdkRepo && LibraryDir(lib.spec) in dirs ==> r.Err?
    ensures r.Ok? && lib.spec.repo != SdkRepo ==>
      && LibraryDir(lib.spec) !in dirs
      && r.value.dirs == dirs + Prefixes(LibraryDir(lib.spec))
      && FetchFiles(lib, w).Ok?
      && r.value.urls == FetchFiles(lib, w).value.urls
      && Record(lib, FetchFiles(lib, w).value, w) == Ok(r.value.lib)
    ensures r.Ok? ==> r.value.lib.spec == lib.spec && r.value.lib.targetName == lib.targetName
  {
    if lib.spec.repo == SdkRepo then Ok(Fetched(lib, dirs, []))
    else
      var dir := LibraryDir(lib.spec);
      if dir in dirs then Err("FileExistsError")
      else
        var f :- FetchFiles(lib, w);
        var lib' :- Record(lib, f, w);
        Ok(Fetched(lib', dirs + Prefixes(dir), f.urls))
  }

  /** A directory collision fails before anything is fetched: the outcome
      does not depend on the network at all. */
  lemma {:induction false} CollisionIgnoresNetwork(lib: Library, dirs: set<Path>, w1: World, w2: World)
    requires lib.spec.repo != SdkRepo && LibraryDir(lib.spec) in dirs
    ensures Download(lib, dirs, w1) == Download(lib, dirs, w2)
  {
  }

  /** Downloading the same entry twice fails the second time. */
  lemma {:induction false} DuplicateDownloadFails(lib: Library, dirs: set<Path>, w: World, w2: World)
    requires lib.spec.repo != SdkRepo
    requires Download(lib, dirs, w).Ok?
    ensures Download(Download(lib, dirs, w).value.lib, Download(lib, dirs, w).value.dirs, w2).Err?
  {
    var f := Download(lib, dirs, w).value;
    assert LibraryDir(lib.spec) in Prefixes(LibraryDir(lib.spec));
    assert LibraryDir(f.lib.spec) in f.dirs;
  }

  /** `get_library_path`: the AAR when there is one, else the JAR, else an
      exception. */
  function LibraryFile(lib: Library): (r: Result<Path>)
    ensures r.Ok? <==> lib.file.Some?
    ensures lib.file == Some(Aar) ==> r == Ok(LibraryDir(lib.spec) + [AarFileName(lib.spec)])
    ensures lib.file == Some(Jar) ==> r == Ok(LibraryDir(lib.spec) + [JarFileName(lib.spec)])
  {
    match lib.file
    case Some(Aar) => Ok(LibraryDir(lib.spec) + [AarFileName(lib.spec)])
    case Some(Jar) => Ok(LibraryDir(lib.spec) + [JarFileName(lib.spec)])
    case None => Err("No library file found")
  }

  /** Every successful download of a non-prebuilt leaves a library file. */
  lemma {:induction false} DownloadedHasFile(lib: Library, dirs: set<Path>, w: World)
    requires lib.spec.repo != SdkRepo && Download(lib, dirs, w).Ok?
    ensures LibraryFile(Download(lib, dirs, w).value.lib).Ok?
  {
  }

  // ---------------------------------------------------------------------
  // Soong module names of dependencies

  /** The index of the first known library with the given group and artifact,
      or -1. */
  function FindKnown(known: seq<Library>, d: Coord): (r: int)
    ensures -1 <= r < |known|
    ensures r >= 0 ==> known[r].spec.group == d.group && known[r].spec.artifact == d.artifact
    ensures forall j :: 0 <= j < |known| && (r == -1 || j < r) ==>
      !(known[j].spec.group == d.group && known[j].spec.artifact == d.artifact)
  {
    if |known| == 0 then -1
    else if known[0].spec.group == d.group && known[0].spec.artifact == d.artifact then 0
    else
      var k := FindKnown(known[1..], d);
      if k == -1 then -1 else k + 1
  }

  /** The name one POM dependency contributes, or `None` when it is on the
      ignore list (checked on the raw name, before aliasing). A known library
      with the same coordinates wins over the alias. */
  function DepName(d: Coord, known: seq<Library>): (r: Option<string>)
    ensures r.None? <==> RawName(d.group, d.artifact) in AospIgnore
    ensures r.Some? && FindKnown(known, d) >= 0 ==> r.value == known[FindKnown(known, d)].targetName
    ensures r.Some? && FindKnown(known, d) == -1 ==> r.value == Alias(RawName(d.group, d.artifact))
  {
    var raw := RawName(d.group, d.artifact);
    if raw in AospIgnore then None
    else
      var k := FindKnown(known, d);
      if k >= 0 then Some(known[k].targetName) else Some(Alias(raw))
  }

  function DepNames(deps: seq<Coord>, known: seq<Library>): (r: seq<string>)
    ensures |r| <= |deps|
    decreases |deps|
  {
    if |deps| == 0 then []
    else
      (match DepName(deps[0], known) case Some(n) => [n] case None => []) + DepNames(deps[1..], known)
  }

  /** Names are produced one dependency at a time and in order. */
  lemma {:induction false} DepNamesAppend(a: seq<Coord>, b: seq<Coord>, known: seq<Library>)
    ensures DepNames(a + b, known) == DepNames(a, known) + DepNames(b, known)
    decreases |a|
  {
    if |a| == 0 {
      assert a + b == b;
    } else {
      assert (a + b)[0] == a[0];
      assert (a + b)[1..] == a[1..] + b;
      DepNamesAppend(a[1..], b, known);
    }
  }

  /** An ignored dependency contributes nothing, any other exactly its name. */
  lemma {:induction false} DepNamesSingle(d: Coord, known: seq<Library>)
    ensures RawName(d.group, d.artifact) in AospIgnore ==> DepNames([d], known) == []
    ensures RawName(d.group, d.artifact) !in AospIgnore ==> DepNames([d], known) == [DepName(d, known).value]
  {
    assert [d][1..] == [];
  }

  /** The `static_libs` entries of a vendored module: the translated names,
      duplicates removed keeping the first. */
  function SoongDepNames(lib: Library, known: seq<Library>): (r: seq<string>)
    ensures NoDup(r)
    ensures forall i :: 0 <= i < |r| ==> r[i] in DepNames(lib.dependencies, known)
    ensures forall i :: 0 <= i < |DepNames(lib.dependencies, known)| ==> DepNames(lib.dependencies, known)[i] in r
    ensures forall i, j :: 0 <= i < j < |r| ==>
      IndexOf(DepNames(lib.dependencies, known), r[i]) < IndexOf(DepNames(lib.dependencies, known), r[j])
  {
    Distinct(DepNames(lib.dependencies, known))
  }

  /** Lines joined with newlines (`"\n".join`). */
  function Unlines(lines: seq<string>): string {
    Join(lines, "\n")
  }

  /** The rendered dependency list: empty, or a newline and then the lines. */
  function RenderDeps(names: seq<string>): string {
    if |names| == 0 then "" else "\n" + Unlines(seq(|names|, i requires 0 <= i < |names| => Blueprint.Entry(names[i])))
  }

  lemma {:induction false} RenderDepsIsEntries(names: seq<string>)
    ensures RenderDeps(names) == Blueprint.Entries(names)
    decreases |names|
  {
    if |names| > 1 {
      RenderDepsIsEntries(names[1..]);
      var lines := seq(|names|, i requires 0 <= i < |names| => Blueprint.Entry(names[i]));
      var tail := seq(|names| - 1, i requires 0 <= i < |names| - 1 => Blueprint.Entry(names[1..][i]));
      assert lines[1..] == tail;
      assert Unlines(lines) == lines[0] + "\n" + Unlines(tail);
    }
  }

  /** A template line giving an API level. */
  function LevelLine(key: string, level: int): string {
    "    " + key + ": \"" + IntToString(level) + "\",\n"
  }

  /** The template's `apex_available` list. */
  const ApexLines: string := "    apex_available: [" + Blueprint.Entries(Blueprint.ApexTargets) + "\n    ],\n"

  /** The lines of the AAR template's `android_library_import`. */
  function AarImportLines(lib: Library, deps: string): seq<string> {
    ["    name: \"" + lib.targetName + "-nodeps\",\n",
     "    aars: [\"" + PathText(RelativePath(lib.spec)) + "/" + AarFileName(lib.spec) + "\"],\n",
     LevelLine("sdk_version", lib.sdkVersion),
     LevelLine("min_sdk_version", lib.minSdkVersion),
     ApexLines,
     "    static_libs: [" + deps + "\n    ],\n"]
  }

  /** The `static_libs` of the library module: its own prebuilt first. */
  function LibraryStaticLibs(lib: Library, deps: string): string {
    "    static_libs: [" + ("\n" + Blueprint.Entry(lib.targetName + "-nodeps") + deps) + "\n    ],\n"
  }

  /** The lines of the AAR template's `android_library`. */
  function AarLibraryLines(lib: Library, deps: string): seq<string> {
    ["    name: \"" + lib.targetName + "\",\n",
     LevelLine("sdk_version", lib.sdkVersion),
     LevelLine("min_sdk_version", lib.minSdkVersion),
     ApexLines,
     "    manifest: \"" + PathText(RelativePath(lib.spec)) + "/AndroidManifest.xml\",\n",
     LibraryStaticLibs(lib, deps),
     "    java_version: \"1.7\",\n"]
  }

  /** `AAR_SOONG_MODULE_TEMPLATE` filled in for a library and its rendered
      dependency list. */
  function AarStanza(lib: Library, deps: string): string {
    ("android_library_import {\n" + (Blueprint.Concat(AarImportLines(lib, deps)) + "}\n")) + "\n" +
    ("android_library {\n" + (Blueprint.Concat(AarLibraryLines(lib, deps)) + "}\n"))
  }

  /** The lines of the JAR template's `java_import`. */
  function JarImportLines(lib: Library): seq<string> {
    ["    name: \"" + lib.targetName + "-nodeps\",\n",
     "    jars: [\"" + PathText(RelativePath(lib.spec)) + "/" + JarFileName(lib.spec) + "\"],\n",
     LevelLine("sdk_version", lib.sdkVersion),
     LevelLine("min_sdk_version", lib.minSdkVersion),
     ApexLines]
  }

  /** The lines of the JAR template's `java_library_static`. */
  function JarLibraryLines(lib: Library, deps: string): seq<string> {
    ["    name: \"" + lib.targetName + "\",\n",
     LevelLine("sdk_version", lib.sdkVersion),
     LevelLine("min_sdk_version", lib.minSdkVersion),
     ApexLines,
     LibraryStaticLibs(lib, deps),
     "    java_version: \"1.7\",\n"]
  }

  /** `JAR_SOONG_MODULE_TEMPLATE` filled in. */
  function JarStanza(lib: Library, deps: string): string {
    ("java_import {\n" + (Blueprint.Concat(JarImportLines(lib)) + "}\n")) + "\n" +
    ("java_library_static {\n" + (Blueprint.Concat(JarLibraryLines(lib, deps)) + "}\n"))
  }

  // The template lines are the properties they stand for, one line at a time.

  lemma {:induction false} NoDepsNameLine(layout: Blueprint.Layout, t: string)
    ensures Blueprint.PropertyText(layout, Blueprint.Property("name", Blueprint.Quoted(t + "-nodeps"))) == "    name: \"" + t + "-nodeps\",\n"
  {
  }

  lemma {:induction false} NameLine(layout: Blueprint.Layout, t: string)
    ensures Blueprint.PropertyText(layout, Blueprint.Property("name", Blueprint.Quoted(t))) == "    name: \"" + t + "\",\n"
  {
  }

  lemma {:induction false} AarsLine(layout: Blueprint.Layout, dir: string, file: string)
    ensures Blueprint.PropertyText(layout, Blueprint.Property("aars", Blueprint.OneItem(dir + "/" + file))) == "    aars: [\"" + dir + "/" + file + "\"],\n"
  {
  }

  lemma {:induction false} JarsLine(layout: Blueprint.Layout, dir: string, file: string)
    ensures Blueprint.PropertyText(layout, Blueprint.Property("jars", Blueprint.OneItem(dir + "/" + file))) == "    jars: [\"" + dir + "/" + file + "\"],\n"
  {
  }

  lemma {:induction false} ManifestLine(layout: Blueprint.Layout, dir: string)
    ensures Blueprint.PropertyText(layout, Blueprint.Property("manifest", Blueprint.Quoted(dir + "/AndroidManifest.xml"))) ==
      "    manifest: \"" + dir + "/AndroidManifest.xml\",\n"
  {
  }

  lemma {:induction false} JavaVersionLine(layout: Blueprint.Layout)
    ensures Blueprint.PropertyText(layout, Blueprint.Property("java_version", Blueprint.Quoted("1.7"))) == "    java_version: \"1.7\",\n"
  {
  }

  lemma {:induction false} LevelLineIs(layout: Blueprint.Layout, key: string, level: int)
    ensures Blueprint.PropertyText(layout, Blueprint.Property(key, Blueprint.Quoted(IntToString(level)))) == LevelLine(key, level)
  {
  }

  lemma {:induction false} StaticLibsKey()
    ensures "    " + "static_libs" + ": [" == "    static_libs: ["
  {
  }

  lemma {:induction false} ApexKey()
    ensures "    " + "apex_available" + ": [" == "    apex_available: ["
  {
  }

  /** The APEX list as the templates write it. */
  lemma {:induction false} ApexLinesAre(layout: Blueprint.Layout)
    ensures Blueprint.PropertyText(layout, Blueprint.ApexAvailable) == ApexLines
  {
    Blueprint.ItemListLines(layout, "apex_available", Blueprint.ApexTargets);
    ApexKey();
  }

  /** An entry list with one more name in front. */
  lemma {:induction false} EntriesCons(x: string, names: seq<string>)
    ensures Blueprint.Entries([x] + names) == "\n" + Blueprint.Entry(x) + Blueprint.Entries(names)
  {
    assert ([x] + names)[1..] == names;
  }

  lemma {:induction false} ImportLibsLine(names: seq<string>)
    ensures Blueprint.PropertyText(Blueprint.Script, Blueprint.Property("static_libs", Blueprint.ItemList(names))) ==
      "    static_libs: [" + RenderDeps(names) + "\n    ],\n"
  {
    RenderDepsIsEntries(names);
    Blueprint.ItemListLines(Blueprint.Script, "static_libs", names);
    StaticLibsKey();
  }

  lemma {:induction false} LibraryLibsLine(lib: Library, names: seq<string>)
    ensures Blueprint.PropertyText(Blueprint.Script, Blueprint.Property("static_libs", Blueprint.ItemList([lib.targetName + "-nodeps"] + names))) ==
      LibraryStaticLibs(lib, RenderDeps(names))
  {
    RenderDepsIsEntries(names);
    EntriesCons(lib.targetName + "-nodeps", names);
    Blueprint.ItemListLines(Blueprint.Script, "static_libs", [lib.targetName + "-nodeps"] + names);
    StaticLibsKey();
  }

  /** The modules the script's AAR template stands for, with the library's
      dependency names `names`. */
  function AarModules(lib: Library, names: seq<string>): seq<Blueprint.Module> {
    Blueprint.AarPair(lib.targetName, PathText(RelativePath(lib.spec)), AarFileName(lib.spec),
                      lib.sdkVersion, lib.minSdkVersion, names, [lib.targetName + "-nodeps"] + names)
  }

  function JarModules(lib: Library, names: seq<string>): seq<Blueprint.Module> {
    Blueprint.JarPair(lib.targetName, PathText(RelativePath(lib.spec)), JarFileName(lib.spec),
                      lib.sdkVersion, lib.minSdkVersion, [lib.targetName + "-nodeps"] + names)
  }

  lemma {:induction false} AarImportSection(lib: Library, names: seq<string>)
    ensures Blueprint.Lines(Blueprint.Script, AarModules(lib, names)[0].props) == AarImportLines(lib, RenderDeps(names))
  {
    var dir := PathText(RelativePath(lib.spec));
    NoDepsNameLine(Blueprint.Script, lib.targetName);
    AarsLine(Blueprint.Script, dir, AarFileName(lib.spec));
    LevelLineIs(Blueprint.Script, "sdk_version", lib.sdkVersion);
    LevelLineIs(Blueprint.Script, "min_sdk_version", lib.minSdkVersion);
    ApexLinesAre(Blueprint.Script);
    ImportLibsLine(names);
  }

  lemma {:induction false} AarLibrarySection(lib: Library, names: seq<string>)
    ensures Blueprint.Lines(Blueprint.Script, AarModules(lib, names)[1].props) == AarLibraryLines(lib, RenderDeps(names))
  {
    var dir := PathText(RelativePath(lib.spec));
    NameLine(Blueprint.Script, lib.targetName);
    LevelLineIs(Blueprint.Script, "sdk_version", lib.sdkVersion);
    LevelLineIs(Blueprint.Script, "min_sdk_version", lib.minSdkVersion);
    ApexLinesAre(Blueprint.Script);
    ManifestLine(Blueprint.Script, dir);
    LibraryLibsLine(lib, names);
    JavaVersionLine(Blueprint.Script);
  }

  /** The AAR template is the `-nodeps` archive import listing the
      dependencies, then the library wrapping it with the manifest and
      listing the import first and the dependencies after it, both at the
      library's API levels. */
  lemma {:induction false} AarStanzaIsPair(lib: Library, names: seq<string>)
    ensures AarStanza(lib, RenderDeps(names)) == Blueprint.ModulesText(Blueprint.Script, AarModules(lib, names))
  {
    var ms := AarModules(lib, names);
    AarImportSection(lib, names);
    AarLibrarySection(lib, names);
    Blueprint.PairText(Blueprint.Script, ms, "android_library_import {\n", AarImportLines(lib, RenderDeps(names)),
                       "android_library {\n", AarLibraryLines(lib, RenderDeps(names)));
  }

  lemma {:induction false} JarImportSection(lib: Library, names: seq<string>)
    ensures Blueprint.Lines(Blueprint.Script, JarModules(lib, names)[0].props) == JarImportLines(lib)
  {
    var dir := PathText(RelativePath(lib.spec));
    NoDepsNameLine(Blueprint.Script, lib.targetName);
    JarsLine(Blueprint.Script, dir, JarFileName(lib.spec));
    LevelLineIs(Blueprint.Script, "sdk_version", lib.sdkVersion);
    LevelLineIs(Blueprint.Script, "min_sdk_version", lib.minSdkVersion);
    ApexLinesAre(Blueprint.Script);
  }

  lemma {:induction false} JarLibrarySection(lib: Library, names: seq<string>)
    ensures Blueprint.Lines(Blueprint.Script, JarModules(lib, names)[1].props) == JarLibraryLines(lib, RenderDeps(names))
  {
    NameLine(Blueprint.Script, lib.targetName);
    LevelLineIs(Blueprint.Script, "sdk_version", lib.sdkVersion);
    LevelLineIs(Blueprint.Script, "min_sdk_version", lib.minSdkVersion);
    ApexLinesAre(Blueprint.Script);
    LibraryLibsLine(lib, names);
    JavaVersionLine(Blueprint.Script);
  }

  /** The JAR template is the `-nodeps` import of the jar, then the static
      library listing the import and the dependencies. */
  lemma {:induction false} JarStanzaIsPair(lib: Library, names: seq<string>)
    ensures JarStanza(lib, RenderDeps(names)) == Blueprint.ModulesText(Blueprint.Script, JarModules(lib, names))
  {
    var ms := JarModules(lib, names);
    JarImportSection(lib, names);
    JarLibrarySection(lib, names);
    Blueprint.PairText(Blueprint.Script, ms, "java_import {\n", JarImportLines(lib),
                       "java_library_static {\n", JarLibraryLines(lib, RenderDeps(names)));
  }

  /** `get_soong_module`: an exception for a prebuilt, no text when the
      library has no file, otherwise the AAR or JAR module pair with the
      library's dependencies in `static_libs`. */
  function SoongModule(lib: Library, known: seq<Library>): (r: Result<Option<string>>)
    ensures r.Err? <==> lib.spec.repo == SdkRepo
    ensures r.Ok? ==> (r.value.None? <==> lib.file.None?)
    ensures r.Ok? && lib.file == Some(Aar) ==>
      r.value.value == Blueprint.ModulesText(Blueprint.Script, AarModules(lib, SoongDepNames(lib, known)))
    ensures r.Ok? && lib.file == Some(Jar) ==>
      r.value.value == Blueprint.ModulesText(Blueprint.Script, JarModules(lib, SoongDepNames(lib, known)))
  {
    if lib.spec.repo == SdkRepo then Err("SDK modules don't need Soong module")
    else
      var names := SoongDepNames(lib, known);
      var deps := RenderDeps(names);
      match lib.file
      case Some(Aar) => AarStanzaIsPair(lib, names); Ok(Some(AarStanza(lib, deps)))
      case Some(Jar) => JarStanzaIsPair(lib, names); Ok(Some(JarStanza(lib, deps)))
      case None => Ok(None)
  }
}
