/** The Gradle-side twin of the vendoring script (the `generateBp` task):
    its naming rules, the AOSP availability rule, the rewrite of the root
    `static_libs` list, the choice of artifacts to vendor and the rendering of
    each vendored module's dependency list. */
module GradleBp {
  import opened Wrappers
  import opened Seqs
  import opened Strs
  import opened Sorting
  import Libs
  import Vendoring

  /** The root project's name. */
  const RootName: string := "Aperture"

  /** `ModuleVersionIdentifier`. */
  datatype ModuleId = ModuleId(group: string, name: string, version: string)

  /** `group:name:version`. */
  function ModuleString(id: ModuleId): string {
    id.group + ":" + id.name + ":" + id.version
  }

  /** The Gradle coordinate is the one the Python script prints. */
  lemma {:induction false} ModuleStringIsGradleName(id: ModuleId, repo: string)
    ensures ModuleString(id) == Vendoring.GradleName(Libs.Spec(id.group, id.name, id.version, repo))
  {
  }

  /** `group-with-slashes/name/version`. */
  function ModulePath(id: ModuleId): string {
    ReplaceChar(id.group, '.', "/") + "/" + id.name + "/" + id.version
  }

  /** `n` spaces, none for `n <= 0`. */
  function Spaces(n: int): (r: string)
    ensures |r| == if n > 0 then n else 0
    ensures forall i :: 0 <= i < |r| ==> r[i] == ' '
    decreases n
  {
    if n <= 0 then "" else Spaces(n - 1) + " "
  }

  /** The `spaces` lambda: a `downTo` loop appending one space per step. */
  method SpacesLoop(n: int) returns (ret: string)
    ensures |ret| == if n > 0 then n else 0
    ensures forall i :: 0 <= i < |ret| ==> ret[i] == ' '
    ensures ret == Spaces(n)
  {
    ret := "";
    var i := n;
    while i >= 1
      invariant n >= 0 ==> 0 <= i <= n && ret == Spaces(n - i)
      invariant n < 0 ==> i == n && ret == ""
      decreases i
    {
      ret := ret + " ";
      i := i - 1;
    }
  }

  /** The argument kinds `moduleName` is called with. */
  datatype NameArg = Ident(id: ModuleId) | Str(s: string) | Other

  /** `moduleName` for a string: `root_group_artifact` for `group:artifact...`
      (only the first two colon-separated parts count), else `root_s`. */
  function ModuleNameOf(s: string): (r: string)
    ensures ':' !in s ==> r == RootName + "_" + s
  {
    if ':' in s then
      var parts := Split(s, ':');
      RootName + "_" + parts[0] + "_" + parts[1]
    else RootName + "_" + s
  }

  /** `moduleName`: an exception for any argument that is neither an
      identifier nor a string. */
  function ModuleName(arg: NameArg): (r: Result<string>)
    ensures r.Err? <==> arg.Other?
    ensures arg.Ident? ==> r == Ok(RootName + "_" + arg.id.group + "_" + arg.id.name)
    ensures arg.Str? ==> r == Ok(ModuleNameOf(arg.s))
  {
    match arg
    case Ident(id) => Ok(RootName + "_" + id.group + "_" + id.name)
    case Str(s) => Ok(ModuleNameOf(s))
    case Other => Err("Invalid `it` type")
  }

  /** Naming a module by its identifier or by its `group:name` string gives
      the same name. */
  lemma {:induction false} ModuleNameSpellingsAgree(id: ModuleId)
    requires ':' !in id.group && ':' !in id.name
    ensures ModuleName(Str(id.group + ":" + id.name)) == ModuleName(Ident(id))
  {
    var parts := [id.group, id.name];
    assert Join(parts, [':']) == id.group + ":" + id.name by {
      assert parts[1..] == [id.name];
    }
    SplitJoin(parts, ':');
  }

  /** The `-nodeps` entry `formatDeps` inserts names the prebuilt module the
      stanza declares. */
  lemma {:induction false} NoDepsNameAgrees(id: ModuleId)
    requires ':' !in id.group && ':' !in id.name
    ensures ModuleName(Str(id.group + "_" + id.name + "-nodeps")).value == ModuleName(Ident(id)).value + "-nodeps"
  {
    var s := id.group + "_" + id.name + "-nodeps";
    assert ':' !in "_" && ':' !in "-nodeps";
    assert ':' !in s;
  }

  /** `moduleNameAosp`: seven coordinates with platform names of their own
      (both guava coordinates are `guava`), every other one with its colons
      replaced by underscores. */
  function ModuleNameAosp(s: string): (r: string)
    ensures s == "com.google.guava:guava" || s == "com.google.guava:listenablefuture" ==> r == "guava"
  {
    if s == "androidx.constraintlayout:constraintlayout" then "androidx-constraintlayout_constraintlayout"
    else if s == "com.google.auto.value:auto-value-annotations" then "auto_value_annotations"
    else if s == "com.google.guava:guava" then "guava"
    else if s == "com.google.guava:listenablefuture" then "guava"
    else if s == "org.jetbrains.kotlin:kotlin-stdlib" then "kotlin-stdlib"
    else if s == "org.jetbrains.kotlin:kotlin-stdlib-jdk8" then "kotlin-stdlib-jdk8"
    else if s == "org.jetbrains.kotlinx:kotlinx-coroutines-android" then "kotlinx-coroutines-android"
    else ReplaceChar(s, ':', "_")
  }

  /** Outside its own table, the AOSP name of `group:artifact` is the raw
      `group_artifact` name the Python script uses. */
  lemma {:induction false} ModuleNameAospIsRawName(g: string, a: string)
    requires ':' !in g && ':' !in a
    requires g + ":" + a !in {"androidx.constraintlayout:constraintlayout", "com.google.auto.value:auto-value-annotations",
      "com.google.guava:guava", "com.google.guava:listenablefuture", "org.jetbrains.kotlin:kotlin-stdlib",
      "org.jetbrains.kotlin:kotlin-stdlib-jdk8", "org.jetbrains.kotlinx:kotlinx-coroutines-android"}
    ensures ModuleNameAosp(g + ":" + a) == Vendoring.RawName(g, a)
  {
    ReplaceCharIsSplitJoin(g + ":" + a, ':', '_');
    var parts := [g, a];
    assert Join(parts, [':']) == g + ":" + a by {
      assert parts[1..] == [a];
    }
    SplitJoin(parts, ':');
    assert Join(parts, "_") == g + "_" + a by {
      assert parts[1..] == [a];
    }
  }

  predicate StartsWith(s: string, p: string) {
    |p| <= |s| && s[..|p|] == p
  }

  /** `isAvailableInAosp`: androidx is provided by the platform except the
      camera and media3 groups and `lifecycle-common`; the JetBrains groups,
      AutoValue, Guava and JUnit are provided; nothing else is. */
  predicate IsAvailableInAosp(group: string, artifact: string) {
    if StartsWith(group, "androidx") then
      !StartsWith(group, "androidx.camera") && !StartsWith(group, "androidx.media3") && artifact != "lifecycle-common"
    else StartsWith(group, "org.jetbrains") || group == "com.google.auto.value" || group == "com.google.guava" || group == "junit"
  }

  /** The CameraX groups are always vendored. */
  lemma {:induction false} CameraNeverAvailable(rest: string, artifact: string)
    ensures !IsAvailableInAosp("androidx.camera" + rest, artifact)
  {
    var g := "androidx.camera" + rest;
    assert g[..8] == "androidx";
    assert g[..15] == "androidx.camera";
  }

  /** Only androidx and JetBrains groups are available by prefix; any other
      group is available exactly when it is one of the three named ones. */
  lemma {:induction false} AvailabilityOutsidePrefixes(group: string, artifact: string)
    requires !StartsWith(group, "androidx") && !StartsWith(group, "org.jetbrains")
    ensures IsAvailableInAosp(group, artifact) <==> group in {"com.google.auto.value", "com.google.guava", "junit"}
  {
  }

  // ---------------------------------------------------------------------
  // The root `static_libs` list

  /** A declared dependency: its group may be missing. */
  datatype Declared = Declared(group: Option<string>, name: string)

  /** The root list drops a dependency whose group is the Kotlin one or
      whose name is `kotlin-bom`. */
  predicate KeepInRoot(d: Declared) {
    d.group != Some("org.jetbrains.kotlin") && d.name != "kotlin-bom"
  }

  /** One line of the root list; a missing group fails the `!!`. */
  function RootLine(d: Declared): (r: Result<string>)
    ensures r.Ok? <==> d.group.Some?
  {
    match d.group
    case None => Err("NullPointerException")
    case Some(g) =>
      var name := if IsAvailableInAosp(g, d.name) then ModuleNameAosp(g + ":" + d.name) else ModuleNameOf(g + ":" + d.name);
      Ok(Spaces(8) + "\"" + name + "\",")
  }

  /** The lines of the root list, failing at the first missing group. */
  function RootLines(deps: seq<Declared>): (r: Result<seq<string>>)
    ensures r.Ok? ==> |r.value| == |deps|
    decreases |deps|
  {
    if |deps| == 0 then Ok([])
    else
      var l :- RootLine(deps[0]);
      var rest :- RootLines(deps[1..]);
      Ok([l] + rest)
  }

  /** The lines render, one per dependency and in order, exactly when
      every dependency has a group. */
  lemma {:induction false} RootLinesOk(deps: seq<Declared>)
    ensures RootLines(deps).Ok? <==> forall i :: 0 <= i < |deps| ==> deps[i].group.Some?
    ensures RootLines(deps).Ok? ==> forall i :: 0 <= i < |deps| ==> RootLines(deps).value[i] == RootLine(deps[i]).value
    decreases |deps|
  {
    if |deps| > 0 {
      var tail := deps[1..];
      RootLinesOk(tail);
      assert forall i :: 1 <= i < |deps| ==> deps[i] == tail[i - 1];
      if RootLines(deps).Ok? {
        assert RootLines(deps).value == [RootLine(deps[0]).value] + RootLines(tail).value;
      }
    }
  }

  /** The generated list text: the marker comment line, then the kept
      dependencies joined by newlines. */
  function RootDeps(deps: seq<Declared>): Result<string> {
    var lines :- RootLines(Filter(deps, KeepInRoot));
    Ok(Spaces(8) + "// DO NOT EDIT THIS SECTION MANUALLY\n" + Join(lines, "\n"))
  }

  /** Dependencies the root list drops cannot make it fail. */
  lemma {:induction false} RootDepsFailsOnlyOnMissingGroup(deps: seq<Declared>)
    ensures RootDeps(deps).Err? <==> exists i :: 0 <= i < |deps| && KeepInRoot(deps[i]) && deps[i].group.None?
  {
    var kept := Filter(deps, KeepInRoot);
    RootLinesOk(kept);
    if RootDeps(deps).Err? {
      var j :| 0 <= j < |kept| && kept[j].group.None?;
      var i :| 0 <= i < |deps| && deps[i] == kept[j];
    }
  }

  const StaticLibsOpen: string := "static_libs: ["

  /** The replacement text of one `static_libs: [...]` match. */
  function StaticLibsReplacement(deps: string): string {
    "static_libs: [" + "\n" + deps + "\n" + Spaces(4) + "]"
  }

  /** Every match of `static_libs: \[.*?\]` (the dot matching newlines too)
      replaced by `repl`, scanning from the left: a match runs from the
      opening text to the first `]` after it. */
  function ReplaceStaticLibs(text: string, repl: string): string
    decreases |text|
  {
    if StartsWith(text, StaticLibsOpen) && ']' in text[|StaticLibsOpen|..] then
      var k := IndexOf(text[|StaticLibsOpen|..], ']');
      repl + ReplaceStaticLibs(text[|StaticLibsOpen| + k + 1..], repl)
    else if |text| == 0 then ""
    else [text[0]] + ReplaceStaticLibs(text[1..], repl)
  }

  predicate HasOpen(text: string) {
    exists i :: 0 <= i <= |text| && StartsWith(text[i..], StaticLibsOpen)
  }

  /** Text without the opening `static_libs: [` is not changed. */
  lemma {:induction false} ReplaceWithoutMatch(text: string, repl: string)
    requires !HasOpen(text)
    ensures ReplaceStaticLibs(text, repl) == text
    decreases |text|
  {
    assert text[0..] == text;
    if |text| > 0 {
      assert !HasOpen(text[1..]) by {
        forall i | 0 <= i <= |text[1..]| ensures !StartsWith(text[1..][i..], StaticLibsOpen) {
          assert text[1..][i..] == text[i + 1..];
        }
      }
      ReplaceWithoutMatch(text[1..], repl);
    }
  }

  /** A list is replaced whole, up to its first `]`, and the rest of the text
      is processed in the same way. */
  lemma {:induction false} ReplaceOneList(body: string, post: string, repl: string)
    requires ']' !in body
    ensures ReplaceStaticLibs(StaticLibsOpen + body + "]" + post, repl) == repl + ReplaceStaticLibs(post, repl)
  {
    var text := StaticLibsOpen + body + "]" + post;
    assert text[..|StaticLibsOpen|] == StaticLibsOpen;
    var tail := text[|StaticLibsOpen|..];
    assert tail == body + "]" + post;
    assert tail[|body|] == ']';
    assert forall j :: 0 <= j < |body| ==> tail[j] == body[j] && tail[j] != ']';
    var k := IndexOf(tail, ']');
    assert k == |body|;
    assert text[|StaticLibsOpen| + k + 1..] == post;
  }

  // ---------------------------------------------------------------------
  // Vendored artifacts

  /** A resolved artifact: its module, the artifact's own name, its file
      name and extension. */
  datatype Resolved = Resolved(id: ModuleId, name: string, fileName: string, ext: string)

  function ArtifactKey(a: Resolved): string {
    ModuleString(a.id)
  }

  /** The platform test asks about the module's group and the artifact's
      own name. */
  predicate Vendored(a: Resolved) {
    !IsAvailableInAosp(a.id.group, a.name)
  }

  /** The first resolved artifact of module string `k` exists and is not
      provided by the platform. */
  predicate FirstVendored(arts: seq<Resolved>, k: string) {
    var f := FirstWhere(arts, HasKey(ArtifactKey, k));
    f.Some? && Vendored(f.value)
  }

  /** Gradle coordinates never contain a colon. */
  predicate ColonFree(arts: seq<Resolved>) {
    forall i :: 0 <= i < |arts| ==>
      ':' !in arts[i].id.group && ':' !in arts[i].id.name && ':' !in arts[i].id.version
  }

  /** Every artifact carries the name of its module. */
  predicate NamedAfterModule(arts: seq<Resolved>) {
    forall i :: 0 <= i < |arts| ==> arts[i].name == arts[i].id.name
  }

  /** The artifacts copied into `libs`: sorted by module string, the first
      resolved artifact of every module string, those AOSP provides skipped. */
  function VendoredArtifacts(arts: seq<Resolved>): (r: seq<Resolved>)
    ensures SortedBy(r, ArtifactKey)
    ensures forall i :: 0 <= i < |r| ==> r[i] in arts && Vendored(r[i])
    ensures forall i :: 0 <= i < |r| ==> FirstWhere(arts, HasKey(ArtifactKey, ArtifactKey(r[i]))) == Some(r[i])
    ensures forall k :: k in Keys(r, ArtifactKey) <==> FirstVendored(arts, k)
    ensures forall i, j :: 0 <= i < j < |r| ==> ArtifactKey(r[i]) != ArtifactKey(r[j])
  {
    var sorted := SortBy(arts, ArtifactKey);
    var unique := DistinctBy(sorted, ArtifactKey);
    var r := Filter(unique, Vendored);
    VendoredFromInput(arts, sorted, unique, r);
    VendoredFirst(arts, sorted, unique, r);
    VendoredOrdered(unique, r);
    r
  }

  /** Equal module strings mean equal group and name, when no part contains
      a colon. */
  lemma {:induction false} ModuleIdFromString(a: ModuleId, b: ModuleId)
    requires ModuleString(a) == ModuleString(b)
    requires ':' !in a.group && ':' !in a.name && ':' !in a.version
    requires ':' !in b.group && ':' !in b.name && ':' !in b.version
    ensures a.group == b.group && a.name == b.name
  {
    Vendoring.GradleNameSplits(Libs.Spec(a.group, a.name, a.version, ""));
    Vendoring.GradleNameSplits(Libs.Spec(b.group, b.name, b.version, ""));
  }

  lemma {:induction false} VendoredFromInput(arts: seq<Resolved>, sorted: seq<Resolved>, unique: seq<Resolved>, r: seq<Resolved>)
    requires multiset(sorted) == multiset(arts)
    requires forall i :: 0 <= i < |unique| ==> unique[i] in sorted
    requires r == Filter(unique, Vendored)
    ensures forall i :: 0 <= i < |r| ==> r[i] in arts
  {
    forall i | 0 <= i < |r| ensures r[i] in arts {
      assert r[i] in unique;
      assert r[i] in multiset(sorted);
    }
  }

  /** The stable sort leaves each module's first artifact first, and
      `distinctBy` keeps exactly that one. */
  lemma {:induction false} VendoredFirst(arts: seq<Resolved>, sorted: seq<Resolved>, unique: seq<Resolved>, r: seq<Resolved>)
    requires sorted == SortBy(arts, ArtifactKey) && unique == DistinctBy(sorted, ArtifactKey)
    requires r == Filter(unique, Vendored)
    ensures forall i :: 0 <= i < |r| ==> FirstWhere(arts, HasKey(ArtifactKey, ArtifactKey(r[i]))) == Some(r[i])
    ensures forall k :: k in Keys(r, ArtifactKey) <==> FirstVendored(arts, k)
  {
    SortedFirst(arts, sorted);
    KeptFirst(arts, sorted, unique, r);
    forall k ensures k in Keys(r, ArtifactKey) <==> FirstVendored(arts, k) {
      if k in Keys(r, ArtifactKey) {
        KeptIsFirstVendored(arts, r, k);
      }
      if FirstVendored(arts, k) {
        FirstVendoredKept(arts, sorted, unique, r, k);
      }
    }
  }

  /** A copied module's first artifact is the copied one, hence vendored. */
  lemma {:induction false} KeptIsFirstVendored(arts: seq<Resolved>, r: seq<Resolved>, k: string)
    requires forall i :: 0 <= i < |r| ==> Vendored(r[i])
    requires forall i :: 0 <= i < |r| ==> FirstWhere(arts, HasKey(ArtifactKey, ArtifactKey(r[i]))) == Some(r[i])
    requires k in Keys(r, ArtifactKey)
    ensures FirstVendored(arts, k)
  {
    var j :| 0 <= j < |r| && Keys(r, ArtifactKey)[j] == k;
  }

  /** Sorting does not change which artifact of a module comes first. */
  lemma {:induction false} SortedFirst(arts: seq<Resolved>, sorted: seq<Resolved>)
    requires forall k :: Filter(sorted, HasKey(ArtifactKey, k)) == Filter(arts, HasKey(ArtifactKey, k))
    ensures forall k :: FirstWhere(sorted, HasKey(ArtifactKey, k)) == FirstWhere(arts, HasKey(ArtifactKey, k))
  {
    forall k ensures FirstWhere(sorted, HasKey(ArtifactKey, k)) == FirstWhere(arts, HasKey(ArtifactKey, k)) {
      FirstWhereIsFilterHead(sorted, HasKey(ArtifactKey, k));
      FirstWhereIsFilterHead(arts, HasKey(ArtifactKey, k));
    }
  }

  lemma {:induction false} KeptFirst(arts: seq<Resolved>, sorted: seq<Resolved>, unique: seq<Resolved>, r: seq<Resolved>)
    requires forall k :: FirstWhere(sorted, HasKey(ArtifactKey, k)) == FirstWhere(arts, HasKey(ArtifactKey, k))
    requires forall i :: 0 <= i < |unique| ==> FirstWhere(sorted, HasKey(ArtifactKey, ArtifactKey(unique[i]))) == Some(unique[i])
    requires r == Filter(unique, Vendored)
    ensures forall i :: 0 <= i < |r| ==> FirstWhere(arts, HasKey(ArtifactKey, ArtifactKey(r[i]))) == Some(r[i])
  {
    forall i | 0 <= i < |r| ensures FirstWhere(arts, HasKey(ArtifactKey, ArtifactKey(r[i]))) == Some(r[i]) {
      assert r[i] in unique;
      var u :| 0 <= u < |unique| && unique[u] == r[i];
    }
  }

  /** A module whose first artifact is vendored is copied. */
  lemma {:induction false} FirstVendoredKept(arts: seq<Resolved>, sorted: seq<Resolved>, unique: seq<Resolved>, r: seq<Resolved>, k: string)
    requires multiset(sorted) == multiset(arts)
    requires forall k :: FirstWhere(sorted, HasKey(ArtifactKey, k)) == FirstWhere(arts, HasKey(ArtifactKey, k))
    requires forall i :: 0 <= i < |unique| ==> FirstWhere(sorted, HasKey(ArtifactKey, ArtifactKey(unique[i]))) == Some(unique[i])
    requires forall i :: 0 <= i < |sorted| ==> ArtifactKey(sorted[i]) in Keys(unique, ArtifactKey)
    requires r == Filter(unique, Vendored)
    requires FirstVendored(arts, k)
    ensures k in Keys(r, ArtifactKey)
  {
    var p := HasKey(ArtifactKey, k);
    var a := FirstWhere(arts, p).value;
    var v :| 0 <= v < |arts| && arts[v] == a && p(arts[v]);
    assert a in multiset(sorted);
    var m :| 0 <= m < |sorted| && sorted[m] == a;
    var ks := Keys(unique, ArtifactKey);
    assert ArtifactKey(sorted[m]) in ks;
    var u :| 0 <= u < |unique| && ks[u] == k;
    assert FirstWhere(sorted, p) == Some(unique[u]);
    assert a in r;
    var j :| 0 <= j < |r| && r[j] == a;
    assert Keys(r, ArtifactKey)[j] == k;
  }

  /** When every artifact is named after its module and no coordinate holds
      a colon, every module with a vendored artifact is copied. */
  lemma {:induction false} VendoredCovers(arts: seq<Resolved>)
    ensures ColonFree(arts) && NamedAfterModule(arts) ==>
      forall i :: 0 <= i < |arts| && Vendored(arts[i]) ==>
        exists j :: 0 <= j < |VendoredArtifacts(arts)| && ArtifactKey(VendoredArtifacts(arts)[j]) == ArtifactKey(arts[i])
  {
    var r := VendoredArtifacts(arts);
    if ColonFree(arts) && NamedAfterModule(arts) {
      forall i | 0 <= i < |arts| && Vendored(arts[i])
        ensures exists j :: 0 <= j < |r| && ArtifactKey(r[j]) == ArtifactKey(arts[i])
      {
        VendoredModuleFirstVendored(arts, i);
        var j :| 0 <= j < |r| && Keys(r, ArtifactKey)[j] == ArtifactKey(arts[i]);
      }
    }
  }

  /** With artifacts named after their modules, a vendored artifact's
      module has a vendored first artifact. */
  lemma {:induction false} VendoredModuleFirstVendored(arts: seq<Resolved>, i: int)
    requires ColonFree(arts) && NamedAfterModule(arts)
    requires 0 <= i < |arts| && Vendored(arts[i])
    ensures FirstVendored(arts, ArtifactKey(arts[i]))
  {
    var p := HasKey(ArtifactKey, ArtifactKey(arts[i]));
    assert p(arts[i]);
    var a := FirstWhere(arts, p).value;
    var v :| 0 <= v < |arts| && arts[v] == a && p(arts[v]);
    ModuleIdFromString(a.id, arts[i].id);
  }

  lemma {:induction false} VendoredOrdered(unique: seq<Resolved>, r: seq<Resolved>)
    requires NoDup(Keys(unique, ArtifactKey)) && SortedBy(unique, ArtifactKey)
    requires r == Filter(unique, Vendored)
    ensures SortedBy(r, ArtifactKey)
    ensures forall i, j :: 0 <= i < j < |r| ==> ArtifactKey(r[i]) != ArtifactKey(r[j])
  {
    forall i, j | 0 <= i < j < |r|
      ensures ArtifactKey(r[i]) != ArtifactKey(r[j]) && LexLe(ArtifactKey(r[i]), ArtifactKey(r[j]))
    {
      FilterPosMonotone(unique, Vendored, i, j);
      var a := FilterPos(unique, Vendored, i);
      var b := FilterPos(unique, Vendored, j);
      assert Keys(unique, ArtifactKey)[a] != Keys(unique, ArtifactKey)[b];
    }
  }
}
