/** The driver of the vendoring script: every dependency entry becomes a
    downloaded `Library`, then the root `Android.bp` list, the generated
    `libs/Android.bp` and (when enabled) the Gradle dependency block are
    written. */
module UpdateLibs {
  import opened Wrappers
  import opened Seqs
  import opened Strs
  import opened Libs
  import opened Vendoring
  import opened ManagedBlock
  import Blueprint

  const BpMarkers: Markers := Markers("    static_libs: [", "    ],")
  const BpHeader: string := "        // DO NOT EDIT THIS LIST MANUALLY"
  const GradleMarkers: Markers := Markers("dependencies {", "}")
  const GradleHeader: string := "    // DO NOT EDIT THIS LIST MANUALLY"
  const LibsBpHeader: string := "// DO NOT EDIT THIS FILE MANUALLY\n"

  /** One library per entry, in order; the first failure (an unknown
      repository, an existing directory, a failed request) ends the run. */
  function ResolveAll(specs: seq<Spec>, dirs: set<Path>, w: World): (r: Result<(seq<Library>, set<Path>)>)
    ensures r.Ok? ==> |r.value.0| == |specs|
    decreases |specs|
  {
    if |specs| == 0 then Ok(([], dirs))
    else
      var lib :- NewLibrary(specs[0]);
      var f :- Download(lib, dirs, w);
      var rest :- ResolveAll(specs[1..], f.dirs, w);
      Ok(([f.lib] + rest.0, rest.1))
  }

  /** A non-prebuilt entry whose directory exists already makes the whole
      run fail. */
  lemma {:induction false} ResolveCollision(specs: seq<Spec>, dirs: set<Path>, w: World)
    requires |specs| > 0 && specs[0].repo in Repositories && specs[0].repo != SdkRepo
    requires LibraryDir(specs[0]) in dirs
    ensures ResolveAll(specs, dirs, w).Err?
  {
  }

  /** The generated part of the root `static_libs` list: the marker comment,
      then every library, prebuilts included, in entry order. */
  function RootBody(libs: seq<Library>): (r: seq<string>)
    ensures |r| == |libs| + 1 && r[0] == BpHeader
  {
    [BpHeader] + seq(|libs|, i requires 0 <= i < |libs| => Blueprint.Entry(Alias(libs[i].targetName)))
  }

  /** For libraries built from their entries the second alias lookup is
      inert: line `i + 1` names library `i`'s own target. */
  lemma {:induction false} RootBodyNames(libs: seq<Library>)
    requires forall i :: 0 <= i < |libs| ==> libs[i].targetName == TargetName(libs[i].spec)
    ensures forall i :: 0 <= i < |libs| ==> RootBody(libs)[i + 1] == Blueprint.Entry(libs[i].targetName)
  {
  }

  function NewAndroidBp(text: string, libs: seq<Library>): string {
    RewriteText(text, BpMarkers, RootBody(libs))
  }

  /** The Soong stanzas of the non-prebuilt libraries, each looked up against
      all libraries. */
  function Stanzas(libs: seq<Library>, known: seq<Library>): (r: Result<seq<string>>)
    ensures r.Ok? ==> |r.value| <= |libs|
    decreases |libs|
  {
    if |libs| == 0 then Ok([])
    else
      var rest :- Stanzas(libs[1..], known);
      if libs[0].spec.repo == SdkRepo then Ok(rest)
      else
        match SoongModule(libs[0], known)
        case Ok(Some(t)) => Ok([t] + rest)
        case _ => Err("TypeError: sequence item: expected str instance, NoneType found")
  }

  /** The stanzas render exactly when every non-prebuilt library has a
      file. */
  lemma {:induction false} StanzasOk(libs: seq<Library>, known: seq<Library>)
    ensures Stanzas(libs, known).Ok? <==> forall i :: 0 <= i < |libs| && libs[i].spec.repo != SdkRepo ==> libs[i].file.Some?
    decreases |libs|
  {
    if |libs| > 0 {
      StanzasOk(libs[1..], known);
      assert forall i :: 1 <= i < |libs| ==> libs[i] == libs[1..][i - 1];
    }
  }

  /** `libs/Android.bp`: the header line and the stanzas joined by newlines. */
  function LibsAndroidBp(libs: seq<Library>): (r: Result<string>)
    ensures r.Ok? <==> forall i :: 0 <= i < |libs| && libs[i].spec.repo != SdkRepo ==> libs[i].file.Some?
    ensures r.Ok? ==> |r.value| >= |LibsBpHeader| && r.value[..|LibsBpHeader|] == LibsBpHeader
  {
    StanzasOk(libs, libs);
    var stanzas :- Stanzas(libs, libs);
    var text := LibsBpHeader + Unlines(stanzas);
    assert text[..|LibsBpHeader|] == LibsBpHeader;
    Ok(text)
  }

  /** The Gradle notation of one library: its coordinate for a prebuilt,
      otherwise `files(...)` with its path relative to the script directory. */
  function GradleDep(lib: Library, kts: bool): (r: Result<string>)
    ensures lib.spec.repo == SdkRepo ==> r.Ok?
    ensures lib.spec.repo != SdkRepo ==> (r.Ok? <==> lib.file.Some?)
  {
    var q := if kts then "\"" else "'";
    if lib.spec.repo == SdkRepo then Ok(q + GradleName(lib.spec) + q)
    else
      var path :- LibraryFile(lib);
      Ok("files(" + q + PathText(path) + q + ")")
  }

  function GradleLine(dep: string, kts: bool): string {
    if kts then "    implementation(" + dep + ")" else "    implementation " + dep
  }

  function GradleBody(libs: seq<Library>, kts: bool): (r: Result<seq<string>>)
    ensures r.Ok? ==> |r.value| == |libs| + 1 && r.value[0] == GradleHeader
    ensures r.Ok? ==> forall i :: 0 <= i < |libs| ==>
      GradleDep(libs[i], kts).Ok? && r.value[i + 1] == GradleLine(GradleDep(libs[i], kts).value, kts)
    ensures r.Err? ==> exists i :: 0 <= i < |libs| && GradleDep(libs[i], kts).Err?
    decreases |libs|
  {
    if |libs| == 0 then Ok([GradleHeader])
    else
      var dep :- GradleDep(libs[0], kts);
      var rest :- GradleBody(libs[1..], kts);
      assert forall i :: 1 <= i < |libs| ==> libs[i] == libs[1..][i - 1];
      Ok([GradleHeader, GradleLine(dep, kts)] + rest[1..])
  }

  function NewBuildGradle(text: string, libs: seq<Library>, kts: bool): Result<string> {
    var body :- GradleBody(libs, kts);
    Ok(RewriteText(text, GradleMarkers, body))
  }

  /** What one run writes. */
  datatype Outputs = Outputs(androidBp: string, libsBp: string, buildGradle: Option<string>)

  /** The build file the Gradle rewrite works on: the Kotlin-script one when
      it exists, else the Groovy one. */
  datatype GradleFile = GradleFile(kts: bool, text: string)

  /** `main`: resolve every entry into a fresh `libs` directory, then write
      the files; the Gradle file only when `updateGradle` is set (the script
      runs with `Libs.UpdateGradle`). */
  function Run(specs: seq<Spec>, androidBp: string, gradle: GradleFile, updateGradle: bool, w: World): (r: Result<Outputs>)
    ensures r.Ok? ==> ResolveAll(specs, {LibsDir}, w).Ok?
    ensures r.Ok? ==> r.value.androidBp == NewAndroidBp(androidBp, ResolveAll(specs, {LibsDir}, w).value.0)
    ensures r.Ok? ==> (r.value.buildGradle.Some? <==> updateGradle)
  {
    var resolved :- ResolveAll(specs, {LibsDir}, w);
    var libs := resolved.0;
    var libsBp :- LibsAndroidBp(libs);
    if updateGradle then
      var g :- NewBuildGradle(gradle.text, libs, gradle.kts);
      Ok(Outputs(NewAndroidBp(androidBp, libs), libsBp, Some(g)))
    else
      Ok(Outputs(NewAndroidBp(androidBp, libs), libsBp, None))
  }

  /** A successful resolution is the first library followed by the
      resolution of the remaining entries. */
  lemma {:induction false} ResolveAllCons(specs: seq<Spec>, dirs: set<Path>, w: World)
    requires |specs| > 0 && ResolveAll(specs, dirs, w).Ok?
    ensures NewLibrary(specs[0]).Ok? && Download(NewLibrary(specs[0]).value, dirs, w).Ok?
    ensures var f := Download(NewLibrary(specs[0]).value, dirs, w).value;
      ResolveAll(specs[1..], f.dirs, w).Ok? &&
      ResolveAll(specs, dirs, w).value.0 == [f.lib] + ResolveAll(specs[1..], f.dirs, w).value.0
  {
  }

  /** Library `i` of a successful resolution is built from entry `i`, with
      a known repository, and has a file unless it is a prebuilt. */
  lemma ResolvedAt(specs: seq<Spec>, dirs: set<Path>, w: World, i: int)
    requires ResolveAll(specs, dirs, w).Ok? && 0 <= i < |specs|
    ensures ResolvedFrom(ResolveAll(specs, dirs, w).value.0[i], specs[i])
  {
    ResolveAllFrom(specs, dirs, w);
    AllResolvedFromAt(ResolveAll(specs, dirs, w).value.0, specs, i);
  }

  /** The library was built from the entry, whose repository is known, and
      has a file unless it is a prebuilt. */
  predicate ResolvedFrom(lib: Library, s: Spec) {
    lib.spec == s && lib.targetName == TargetName(s) && s.repo in Repositories &&
    (s.repo != SdkRepo ==> lib.file.Some?)
  }

  /** Each library was built from the entry at the same position. */
  predicate AllResolvedFrom(libs: seq<Library>, specs: seq<Spec>)
    decreases |specs|
  {
    |libs| == |specs| &&
    (|specs| > 0 ==> ResolvedFrom(libs[0], specs[0]) && AllResolvedFrom(libs[1..], specs[1..]))
  }

  lemma {:induction false} AllResolvedFromAt(libs: seq<Library>, specs: seq<Spec>, i: int)
    requires AllResolvedFrom(libs, specs) && 0 <= i < |specs|
    ensures ResolvedFrom(libs[i], specs[i])
    decreases i
  {
    if i > 0 {
      AllResolvedFromAt(libs[1..], specs[1..], i - 1);
      assert libs[1..][i - 1] == libs[i] && specs[1..][i - 1] == specs[i];
    }
  }

  lemma {:induction false} ResolveAllFrom(specs: seq<Spec>, dirs: set<Path>, w: World)
    requires ResolveAll(specs, dirs, w).Ok?
    ensures AllResolvedFrom(ResolveAll(specs, dirs, w).value.0, specs)
    decreases |specs|
  {
    if |specs| > 0 {
      ResolvedHead(specs, dirs, w);
      ResolveAllCons(specs, dirs, w);
      var d := Download(NewLibrary(specs[0]).value, dirs, w).value.dirs;
      ResolveAllFrom(specs[1..], d, w);
      var libs := ResolveAll(specs, dirs, w).value.0;
      assert libs[1..] == ResolveAll(specs[1..], d, w).value.0;
    }
  }

  /** The first library of a successful resolution comes from the first
      entry. */
  lemma {:induction false} ResolvedHead(specs: seq<Spec>, dirs: set<Path>, w: World)
    requires ResolveAll(specs, dirs, w).Ok? && 0 < |specs|
    ensures ResolvedFrom(ResolveAll(specs, dirs, w).value.0[0], specs[0])
  {
    ResolveAllCons(specs, dirs, w);
    var lib := NewLibrary(specs[0]).value;
    if lib.spec.repo != SdkRepo {
      DownloadedHasFile(lib, dirs, w);
    }
  }

  /** A successful resolution has one library per entry, in order, with the
      entry's target name, and every repository was known. */
  lemma ResolveAllEntries(specs: seq<Spec>, dirs: set<Path>, w: World)
    requires ResolveAll(specs, dirs, w).Ok?
    ensures var libs := ResolveAll(specs, dirs, w).value.0;
      forall i :: 0 <= i < |specs| ==>
        libs[i].spec == specs[i] && libs[i].targetName == TargetName(specs[i]) && specs[i].repo in Repositories
  {
    forall i | 0 <= i < |specs| {
      ResolvedAt(specs, dirs, w, i);
    }
  }

  /** After a successful resolution every non-prebuilt library has a file,
      so writing `libs/Android.bp` cannot fail. */
  lemma ResolvedHaveFiles(specs: seq<Spec>, dirs: set<Path>, w: World)
    requires ResolveAll(specs, dirs, w).Ok?
    ensures var libs := ResolveAll(specs, dirs, w).value.0;
      forall i :: 0 <= i < |libs| && libs[i].spec.repo != SdkRepo ==> libs[i].file.Some?
  {
    forall i | 0 <= i < |specs| {
      ResolvedAt(specs, dirs, w, i);
    }
  }

  /** The run fails only while resolving: the generated files themselves
      never fail once every library is in place. */
  lemma {:induction false} RunFailsOnlyInResolve(specs: seq<Spec>, androidBp: string, gradle: GradleFile, w: World)
    requires ResolveAll(specs, {LibsDir}, w).Ok?
    ensures Run(specs, androidBp, gradle, UpdateGradle, w).Ok?
  {
    ResolvedHaveFiles(specs, {LibsDir}, w);
  }
}
