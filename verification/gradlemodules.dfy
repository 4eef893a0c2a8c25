/** The per-artifact half of the Gradle `generateBp` task: the dependency
    strings read from the POMs beside an artifact, the API levels taken from
    an AAR's manifest, the rendering of a `static_libs` list and the pair of
    Soong stanzas every vendored module gets in `libs/Android.bp`. */
module GradleModules {
  import opened Wrappers
  import opened Seqs
  import opened Strs
  import opened GradleBp
  import Libs
  import Vendoring
  import Blueprint

  // ---------------------------------------------------------------------
  // Dependencies from the POMs

  /** One POM as its `dependencies` elements, each as its child elements. */
  type Pom = seq<seq<Vendoring.PomEntry>>

  function Coordinate(e: Vendoring.PomEntry): string {
    e.group + ":" + e.artifact
  }

  /** `groupId:artifactId` of every child of the first `dependencies`
      element; later `dependencies` elements and the scopes are not read. */
  function PomDeps(pom: Pom): (r: seq<string>)
    ensures |pom| == 0 ==> r == []
    ensures |pom| > 0 ==> |r| == |pom[0]| && forall i :: 0 <= i < |r| ==> r[i] == Coordinate(pom[0][i])
  {
    if |pom| == 0 then [] else seq(|pom[0]|, i requires 0 <= i < |pom[0]| => Coordinate(pom[0][i]))
  }

  /** Only the first `dependencies` element counts. */
  lemma {:induction false} PomDepsFirstElementOnly(first: seq<Vendoring.PomEntry>, rest: Pom)
    ensures PomDeps([first] + rest) == PomDeps([first])
  {
  }

  /** Unlike the Python script, no scope is dropped: every dependency the
      script records is in the Gradle list too, and a test-scoped one is there
      as well. */
  lemma {:induction false} PomDepsCoverScriptDeps(entries: seq<Vendoring.PomEntry>)
    ensures |PomDeps([entries])| == |entries|
    ensures forall i :: 0 <= i < |Vendoring.CompileDeps(entries)| ==>
      Vendoring.CompileDeps(entries)[i].group + ":" + Vendoring.CompileDeps(entries)[i].artifact in PomDeps([entries])
  {
    Vendoring.CompileDepsIsFilter(entries);
    var kept := Filter(entries, Vendoring.KeptScope);
    var ds := PomDeps([entries]);
    forall i | 0 <= i < |Vendoring.CompileDeps(entries)|
      ensures Vendoring.CompileDeps(entries)[i].group + ":" + Vendoring.CompileDeps(entries)[i].artifact in ds
    {
      var k := FilterPos(entries, Vendoring.KeptScope, i);
      assert ds[k] == Coordinate(entries[k]);
    }
  }

  /** The `walk` over the module's POM files, flattened in walk order. */
  function WalkDeps(poms: seq<Pom>): (r: seq<string>)
    ensures |poms| > 0 ==> |PomDeps(poms[0])| <= |r| && r[..|PomDeps(poms[0])|] == PomDeps(poms[0])
    decreases |poms|
  {
    if |poms| == 0 then [] else PomDeps(poms[0]) + WalkDeps(poms[1..])
  }

  /** The flattened walk holds every dependency of every POM and nothing
      else. */
  lemma {:induction false} WalkDepsMembers(poms: seq<Pom>, x: string)
    ensures x in WalkDeps(poms) <==> exists k :: 0 <= k < |poms| && x in PomDeps(poms[k])
    decreases |poms|
  {
    if |poms| > 0 {
      WalkDepsMembers(poms[1..], x);
      if x in WalkDeps(poms[1..]) {
        var k :| 0 <= k < |poms[1..]| && x in PomDeps(poms[1..][k]);
        assert poms[1..][k] == poms[k + 1];
      }
      if exists k :: 0 <= k < |poms| && x in PomDeps(poms[k]) {
        var k :| 0 <= k < |poms| && x in PomDeps(poms[k]);
        if k > 0 {
          assert poms[1..][k - 1] == poms[k];
        }
      }
    }
  }


  // ---------------------------------------------------------------------
  // API levels

  /** `android.defaultConfig.targetSdk` of the app. */
  const GradleTargetSdk: int := 33
  const GradleMinSdk: int := 14

  /** The levels as the Gradle task reads them. The manifest is parsed with
      Groovy's default, namespace-aware `XmlParser`, which keys attributes by
      qualified name, so the `@targetSdkVersion` and `@minSdkVersion` lookups
      by plain name find nothing and both levels keep their defaults; only a
      missing `uses-sdk` element fails, on `first()`. `usesSdk` is the
      attribute map of that element by local name, `None` when there is no
      such element. */
  function LevelsAsWritten(isAar: bool, usesSdk: Option<map<string, string>>): (r: Result<(int, int)>)
    ensures r.Err? <==> isAar && usesSdk.None?
    ensures r.Ok? ==> r.value == (GradleTargetSdk, GradleMinSdk)
  {
    if !isAar then Ok((GradleTargetSdk, GradleMinSdk))
    else match usesSdk
      case None => Err("NoSuchElementException: List is empty.")
      case Some(_) => Ok((GradleTargetSdk, GradleMinSdk))
  }

  /** A manifest declaring `minSdkVersion="21"` does not give level 21 as
      written, while the corrected reading does. */
  lemma {:induction false} LevelsAsWrittenLoseMinSdk()
    ensures LevelsAsWritten(true, Some(map[Vendoring.MinSdkAttr := "21"])) == Ok((GradleTargetSdk, GradleMinSdk))
    ensures Levels(true, Some(map[Vendoring.MinSdkAttr := "21"])) == Ok((GradleTargetSdk, 21))
  {
    assert AllDigits("21") by { assert "21"[0] == '2' && "21"[1] == '1'; }
    assert DigitsValue("21") == 21 by {
      assert "21"[..1] == "2";
      assert DigitsValue("2") == 2 by { assert "2"[..0] == ""; }
    }
  }

  /** The two readings agree exactly when the manifest leaves both levels to
      their defaults: wherever the corrected one reads a declared level, the
      as-written one has dropped it. */
  lemma {:induction false} LevelsAsWrittenAgreeOnDefaults(usesSdk: map<string, string>)
    ensures Levels(true, Some(usesSdk)).Ok? ==>
      (LevelsAsWritten(true, Some(usesSdk)) == Levels(true, Some(usesSdk)) <==>
        Levels(true, Some(usesSdk)).value == (GradleTargetSdk, GradleMinSdk))
  {
  }

  /** The levels the Gradle task evidently means to read: each attribute parsed as
      an integer, the Gradle task's defaults for absent ones. */
  function Levels(isAar: bool, usesSdk: Option<map<string, string>>): (r: Result<(int, int)>)
    ensures !isAar ==> r == Ok((GradleTargetSdk, GradleMinSdk))
    ensures isAar && usesSdk.None? ==> r.Err?
    ensures isAar && usesSdk.Some? ==>
      (r.Ok? <==> Vendoring.AttrInt(usesSdk.value, Vendoring.TargetSdkAttr, GradleTargetSdk).Ok? &&
                  Vendoring.AttrInt(usesSdk.value, Vendoring.MinSdkAttr, GradleMinSdk).Ok?)
  {
    if !isAar then Ok((GradleTargetSdk, GradleMinSdk))
    else match usesSdk
      case None => Err("NoSuchElementException: List is empty.")
      case Some(a) =>
        var target :- Vendoring.AttrInt(a, Vendoring.TargetSdkAttr, GradleTargetSdk);
        var min :- Vendoring.AttrInt(a, Vendoring.MinSdkAttr, GradleMinSdk);
        Ok((target, min))
  }

  /** A level written by the manifest is read back as written. */
  lemma {:induction false} LevelsReadManifest(a: map<string, string>, target: int, min: int)
    requires a == map[Vendoring.TargetSdkAttr := IntToString(target), Vendoring.MinSdkAttr := IntToString(min)]
    ensures Levels(true, Some(a)) == Ok((target, min))
  {
    ParseIntToString(target);
    ParseIntToString(min);
  }

  /** With the target level declared, the corrected reading agrees with the
      Python script's, both defaulting the minimum level to 14. */
  lemma {:induction false} LevelsAgreeWithScript(a: map<string, string>)
    requires Vendoring.TargetSdkAttr in a
    ensures Levels(true, Some(a)) == Vendoring.ReadLevels(Some(a))
  {
  }

  // ---------------------------------------------------------------------
  // `static_libs` lists

  const KotlinStdlibCommon: string := "org.jetbrains.kotlin:kotlin-stdlib-common"

  /** `group:name` of every resolved artifact. */
  function ResolvedKeys(arts: seq<Resolved>): (r: seq<string>)
    ensures |r| == |arts|
    ensures forall i :: 0 <= i < |arts| ==> r[i] == arts[i].id.group + ":" + arts[i].id.name
  {
    seq(|arts|, i requires 0 <= i < |arts| => arts[i].id.group + ":" + arts[i].id.name)
  }

  /** A dependency is listed when it was resolved and is not the common
      Kotlin standard library. */
  predicate KeepDep(dep: string, keys: seq<string>) {
    dep in keys && dep != KotlinStdlibCommon
  }

  /** The kept dependencies, each once, in first-seen order. */
  function KeptDeps(deps: seq<string>, keys: seq<string>): (r: seq<string>)
    ensures NoDup(r)
    ensures forall i :: 0 <= i < |r| ==> r[i] in deps && KeepDep(r[i], keys)
    ensures forall i :: 0 <= i < |deps| && KeepDep(deps[i], keys) ==> deps[i] in r
    ensures forall i, j :: 0 <= i < j < |r| ==> IndexOf(deps, r[i]) < IndexOf(deps, r[j])
  {
    var kept := Filter(deps, d => KeepDep(d, keys));
    var r := Distinct(kept);
    assert forall i :: 0 <= i < |r| ==> r[i] in deps && KeepDep(r[i], keys) by {
      forall i | 0 <= i < |r| ensures r[i] in deps && KeepDep(r[i], keys) {
        assert r[i] in kept;
        var k :| 0 <= k < |kept| && kept[k] == r[i];
      }
    }
    assert forall i :: 0 <= i < |deps| && KeepDep(deps[i], keys) ==> deps[i] in r by {
      forall i | 0 <= i < |deps| && KeepDep(deps[i], keys) ensures deps[i] in r {
        assert deps[i] in kept;
        var k :| 0 <= k < |kept| && kept[k] == deps[i];
      }
    }
    KeptDepsOrdered(deps, keys, kept, r);
    r
  }

  lemma {:induction false} KeptDepsOrdered(deps: seq<string>, keys: seq<string>, kept: seq<string>, r: seq<string>)
    requires kept == Filter(deps, d => KeepDep(d, keys))
    requires r == Distinct(kept)
    ensures forall i, j :: 0 <= i < j < |r| ==> IndexOf(deps, r[i]) < IndexOf(deps, r[j])
  {
    forall i, j | 0 <= i < j < |r| ensures IndexOf(deps, r[i]) < IndexOf(deps, r[j]) {
      var a := IndexOf(kept, r[i]);
      var b := IndexOf(kept, r[j]);
      FilterPosFirst(deps, d => KeepDep(d, keys), a);
      FilterPosFirst(deps, d => KeepDep(d, keys), b);
      FilterPosMonotone(deps, d => KeepDep(d, keys), a, b);
    }
  }

  /** The module name a list entry refers to: the platform name for a
      coordinate AOSP provides, else the Gradle task's own name. Only the first two
      colon-separated parts of a coordinate are read. */
  function DepModuleName(dep: string): string {
    if ':' in dep then
      var parts := Split(dep, ':');
      if IsAvailableInAosp(parts[0], parts[1]) then ModuleNameAosp(dep) else ModuleNameOf(dep)
    else ModuleNameOf(dep)
  }

  /** An entry naming a vendored module refers to the library stanza the Gradle task
      writes for that module. */
  lemma {:induction false} DepOnVendoredModule(id: ModuleId)
    requires ':' !in id.group && ':' !in id.name
    requires !IsAvailableInAosp(id.group, id.name)
    ensures DepModuleName(id.group + ":" + id.name) == ModuleName(Ident(id)).value
  {
    ModuleNameSpellingsAgree(id);
    var parts := [id.group, id.name];
    assert Join(parts, [':']) == id.group + ":" + id.name by {
      assert parts[1..] == [id.name];
    }
    SplitJoin(parts, ':');
  }

  /** An entry naming a module AOSP provides refers to the platform's name. */
  lemma {:induction false} DepOnPlatformModule(g: string, a: string)
    requires ':' !in g && ':' !in a
    requires IsAvailableInAosp(g, a)
    ensures DepModuleName(g + ":" + a) == ModuleNameAosp(g + ":" + a)
  {
    var parts := [g, a];
    assert Join(parts, [':']) == g + ":" + a by {
      assert parts[1..] == [a];
    }
    SplitJoin(parts, ':');
  }

  /** One `"\n<8 spaces>\"name\","` per entry. */
  function ListItems(names: seq<string>): string
    decreases |names|
  {
    if |names| == 0 then "" else "\n" + Spaces(8) + "\"" + names[0] + "\"," + ListItems(names[1..])
  }

  /** The list items are the lines the Python script writes for its lists,
      each preceded by a newline. */
  lemma {:induction false} ListItemsArePrefixedLines(names: seq<string>)
    ensures ListItems(names) == Blueprint.Entries(names)
    decreases |names|
  {
    if |names| > 0 {
      EightSpaces();
      ListItemsArePrefixedLines(names[1..]);
    }
  }

  /** The module name of every entry. */
  function DepModuleNames(deps: seq<string>): (r: seq<string>)
    ensures |r| == |deps| && forall i :: 0 <= i < |deps| ==> r[i] == DepModuleName(deps[i])
  {
    seq(|deps|, i requires 0 <= i < |deps| => DepModuleName(deps[i]))
  }

  /** The text between the brackets: nothing for no entry, else the items
      and a newline with four spaces before the closing bracket. */
  function ListText(deps: seq<string>): (r: string)
    ensures r == "" <==> |deps| == 0
  {
    if |deps| == 0 then "" else ListItems(DepModuleNames(deps)) + "\n" + Spaces(4)
  }

  /** Both generators lay out a non-empty list the same way: the Python
      rendering of the names, then the closing line's indentation. */
  lemma {:induction false} ListTextIsScriptRendering(deps: seq<string>)
    requires |deps| > 0
    ensures ListText(deps) == Vendoring.RenderDeps(DepModuleNames(deps)) + "\n    "
  {
    ListItemsArePrefixedLines(DepModuleNames(deps));
    Vendoring.RenderDepsIsEntries(DepModuleNames(deps));
  }

  /** The `-nodeps` entry naming a module's prebuilt half. */
  function NoDepsEntry(id: ModuleId): string {
    id.group + "_" + id.name + "-nodeps"
  }

  /** `formatDeps(addNoDeps)`. */
  function FormatDeps(id: ModuleId, deps: seq<string>, keys: seq<string>, addNoDeps: bool): (r: string)
    ensures r == "" <==> !addNoDeps && |KeptDeps(deps, keys)| == 0
  {
    var kept := KeptDeps(deps, keys);
    ListText(if addNoDeps then [NoDepsEntry(id)] + kept else kept)
  }

  lemma {:induction false} EightSpaces()
    ensures Spaces(8) == "        "
  {
  }

  /** A non-empty list of items opens with the line of its first name. */
  lemma {:induction false} ListItemsHead(names: seq<string>)
    requires |names| > 0
    ensures var head := "\n" + Blueprint.Entry(names[0]);
      |head| <= |ListItems(names)| && ListItems(names)[..|head|] == head
  {
    var head := "\n" + Blueprint.Entry(names[0]);
    EightSpaces();
    assert ListItems(names) == head + ListItems(names[1..]);
  }

  /** A non-empty list opens with the line of its first entry. */
  lemma {:induction false} ListTextHead(deps: seq<string>)
    requires |deps| > 0
    ensures var head := "\n" + Blueprint.Entry(DepModuleName(deps[0]));
      |head| <= |ListText(deps)| && ListText(deps)[..|head|] == head
  {
    var names := DepModuleNames(deps);
    ListItemsHead(names);
    var items := ListItems(names);
    var head := "\n" + Blueprint.Entry(names[0]);
    assert ListText(deps) == items + ("\n" + Spaces(4));
    assert (items + ("\n" + Spaces(4)))[..|head|] == items[..|head|];
  }

  /** The `-nodeps` entry refers to the prebuilt stanza of the same module. */
  lemma {:induction false} NoDepsEntryName(id: ModuleId)
    requires ':' !in id.group && ':' !in id.name
    ensures DepModuleName(NoDepsEntry(id)) == ModuleName(Ident(id)).value + "-nodeps"
  {
    NoDepsNameAgrees(id);
    assert ':' !in "_" && ':' !in "-nodeps";
  }

  /** With the `-nodeps` entry the list opens with the prebuilt half of the
      same module. */
  lemma {:induction false} FormatDepsOpensWithPrebuilt(id: ModuleId, deps: seq<string>, keys: seq<string>)
    requires ':' !in id.group && ':' !in id.name
    ensures var head := "\n" + Blueprint.Entry(ModuleName(Ident(id)).value + "-nodeps");
      var r := FormatDeps(id, deps, keys, true);
      |head| <= |r| && r[..|head|] == head
  {
    var all := [NoDepsEntry(id)] + KeptDeps(deps, keys);
    NoDepsEntryName(id);
    ListTextHead(all);
  }

  // ---------------------------------------------------------------------
  // Stanzas

  /** A template `static_libs` line around a formatted list. */
  function StaticLibsLine(list: string): string {
    "    static_libs: [" + list + "],\n"
  }

  /** The lines of the AAR template's `android_library_import` for the
      module named `name` stored in `dir`. */
  function AarImportLines(name: string, dir: string, fileName: string, target: int, min: int, plain: string): seq<string> {
    ["    name: \"" + name + "-nodeps\",\n",
     "    aars: [\"" + dir + "/" + fileName + "\"],\n",
     Vendoring.LevelLine("sdk_version", target),
     Vendoring.LevelLine("min_sdk_version", min),
     Vendoring.ApexLines,
     StaticLibsLine(plain)]
  }

  /** The lines of the AAR template's `android_library`. */
  function AarLibraryLines(name: string, dir: string, target: int, min: int, full: string): seq<string> {
    ["    name: \"" + name + "\",\n",
     Vendoring.LevelLine("sdk_version", target),
     Vendoring.LevelLine("min_sdk_version", min),
     Vendoring.ApexLines,
     "    manifest: \"" + dir + "/AndroidManifest.xml\",\n",
     StaticLibsLine(full),
     "    java_version: \"1.7\",\n"]
  }

  /** The AAR template after `trimIndent`, with the two formatted lists: an
      empty line, then the two stanzas. */
  function AarText(name: string, dir: string, fileName: string, target: int, min: int, plain: string, full: string): string {
    "\n" +
    (("android_library_import {\n" + (Blueprint.Concat(AarImportLines(name, dir, fileName, target, min, plain)) + "}\n")) + "\n" +
     ("android_library {\n" + (Blueprint.Concat(AarLibraryLines(name, dir, target, min, full)) + "}\n")))
  }

  function AarModules(id: ModuleId, fileName: string, target: int, min: int, plain: string, full: string): string {
    AarText(ModuleName(Ident(id)).value, ModulePath(id), fileName, target, min, plain, full)
  }

  /** The lines of the JAR template's `java_import`. */
  function JarImportLines(name: string, dir: string, fileName: string, target: int, min: int): seq<string> {
    ["    name: \"" + name + "-nodeps\",\n",
     "    jars: [\"" + dir + "/" + fileName + "\"],\n",
     Vendoring.LevelLine("sdk_version", target),
     Vendoring.LevelLine("min_sdk_version", min),
     Vendoring.ApexLines]
  }

  /** The lines of the JAR template's `java_library_static`. */
  function JarLibraryLines(name: string, target: int, min: int, full: string): seq<string> {
    ["    name: \"" + name + "\",\n",
     Vendoring.LevelLine("sdk_version", target),
     Vendoring.LevelLine("min_sdk_version", min),
     Vendoring.ApexLines,
     StaticLibsLine(full),
     "    java_version: \"1.7\",\n"]
  }

  /** The JAR template after `trimIndent`, with the formatted list. */
  function JarText(name: string, dir: string, fileName: string, target: int, min: int, full: string): string {
    "\n" +
    (("java_import {\n" + (Blueprint.Concat(JarImportLines(name, dir, fileName, target, min)) + "}\n")) + "\n" +
     ("java_library_static {\n" + (Blueprint.Concat(JarLibraryLines(name, target, min, full)) + "}\n")))
  }

  function JarModules(id: ModuleId, fileName: string, target: int, min: int, full: string): string {
    JarText(ModuleName(Ident(id)).value, ModulePath(id), fileName, target, min, full)
  }

  lemma {:induction false} ClosingRegrouped(key: string, e: string)
    ensures key + e + "\n    ],\n" == key + (e + "\n    ") + "],\n"
  {
  }

  lemma {:induction false} EmptyListLine()
    ensures "    " + "static_libs" + ": " + "[]" + ",\n" == "    static_libs: [" + "" + "],\n"
  {
  }

  /** A list with entries, as the task formats it, is the rendering of the
      entries. */
  lemma {:induction false} ListLineShape(names: seq<string>, list: string)
    requires |names| > 0 && list == Blueprint.Entries(names) + "\n    "
    ensures Blueprint.PropertyText(Blueprint.Task, Blueprint.Property("static_libs", Blueprint.ItemList(names))) == StaticLibsLine(list)
  {
    Blueprint.ItemListLines(Blueprint.Task, "static_libs", names);
    Vendoring.StaticLibsKey();
    ClosingRegrouped("    static_libs: [", Blueprint.Entries(names));
  }

  /** A formatted list is the task's rendering of the module names of its
      entries, `[]` when there are none. */
  lemma {:induction false} StaticLibsLineIs(deps: seq<string>)
    ensures Blueprint.PropertyText(Blueprint.Task, Blueprint.Property("static_libs", Blueprint.ItemList(DepModuleNames(deps)))) ==
      StaticLibsLine(ListText(deps))
  {
    if |deps| == 0 {
      EmptyListLine();
    } else {
      var names := DepModuleNames(deps);
      ListTextIsScriptRendering(deps);
      Vendoring.RenderDepsIsEntries(names);
      ListLineShape(names, ListText(deps));
    }
  }

  /** The names listed by `formatDeps`. */
  function FormattedNames(id: ModuleId, deps: seq<string>, keys: seq<string>, addNoDeps: bool): seq<string> {
    var kept := KeptDeps(deps, keys);
    DepModuleNames(if addNoDeps then [NoDepsEntry(id)] + kept else kept)
  }

  lemma {:induction false} FormatDepsLine(id: ModuleId, deps: seq<string>, keys: seq<string>, addNoDeps: bool)
    ensures Blueprint.PropertyText(Blueprint.Task, Blueprint.Property("static_libs", Blueprint.ItemList(FormattedNames(id, deps, keys, addNoDeps)))) ==
      StaticLibsLine(FormatDeps(id, deps, keys, addNoDeps))
  {
    var kept := KeptDeps(deps, keys);
    StaticLibsLineIs(if addNoDeps then [NoDepsEntry(id)] + kept else kept);
  }

  /** The modules the AAR template stands for. */
  function AarPairOf(id: ModuleId, fileName: string, target: int, min: int, deps: seq<string>, keys: seq<string>): seq<Blueprint.Module> {
    Blueprint.AarPair(ModuleName(Ident(id)).value, ModulePath(id), fileName, target, min,
                      FormattedNames(id, deps, keys, false), FormattedNames(id, deps, keys, true))
  }

  function JarPairOf(id: ModuleId, fileName: string, target: int, min: int, deps: seq<string>, keys: seq<string>): seq<Blueprint.Module> {
    Blueprint.JarPair(ModuleName(Ident(id)).value, ModulePath(id), fileName, target, min,
                      FormattedNames(id, deps, keys, true))
  }

  lemma {:induction false} AarImportSection(name: string, dir: string, fileName: string, target: int, min: int,
                                            plainNames: seq<string>, fullNames: seq<string>, plain: string)
    requires Blueprint.PropertyText(Blueprint.Task, Blueprint.Property("static_libs", Blueprint.ItemList(plainNames))) == StaticLibsLine(plain)
    ensures Blueprint.Lines(Blueprint.Task, Blueprint.AarPair(name, dir, fileName, target, min, plainNames, fullNames)[0].props) ==
      AarImportLines(name, dir, fileName, target, min, plain)
  {
    Vendoring.NoDepsNameLine(Blueprint.Task, name);
    Vendoring.AarsLine(Blueprint.Task, dir, fileName);
    Vendoring.LevelLineIs(Blueprint.Task, "sdk_version", target);
    Vendoring.LevelLineIs(Blueprint.Task, "min_sdk_version", min);
    Vendoring.ApexLinesAre(Blueprint.Task);
  }

  lemma {:induction false} AarLibrarySection(name: string, dir: string, fileName: string, target: int, min: int,
                                             plainNames: seq<string>, fullNames: seq<string>, full: string)
    requires Blueprint.PropertyText(Blueprint.Task, Blueprint.Property("static_libs", Blueprint.ItemList(fullNames))) == StaticLibsLine(full)
    ensures Blueprint.Lines(Blueprint.Task, Blueprint.AarPair(name, dir, fileName, target, min, plainNames, fullNames)[1].props) ==
      AarLibraryLines(name, dir, target, min, full)
  {
    Vendoring.NameLine(Blueprint.Task, name);
    Vendoring.LevelLineIs(Blueprint.Task, "sdk_version", target);
    Vendoring.LevelLineIs(Blueprint.Task, "min_sdk_version", min);
    Vendoring.ApexLinesAre(Blueprint.Task);
    Vendoring.ManifestLine(Blueprint.Task, dir);
    Vendoring.JavaVersionLine(Blueprint.Task);
  }

  lemma {:induction false} AarTextIsPair(name: string, dir: string, fileName: string, target: int, min: int,
                                         plainNames: seq<string>, fullNames: seq<string>, plain: string, full: string)
    requires Blueprint.PropertyText(Blueprint.Task, Blueprint.Property("static_libs", Blueprint.ItemList(plainNames))) == StaticLibsLine(plain)
    requires Blueprint.PropertyText(Blueprint.Task, Blueprint.Property("static_libs", Blueprint.ItemList(fullNames))) == StaticLibsLine(full)
    ensures AarText(name, dir, fileName, target, min, plain, full) ==
      "\n" + Blueprint.ModulesText(Blueprint.Task, Blueprint.AarPair(name, dir, fileName, target, min, plainNames, fullNames))
  {
    AarImportSection(name, dir, fileName, target, min, plainNames, fullNames, plain);
    AarLibrarySection(name, dir, fileName, target, min, plainNames, fullNames, full);
    Blueprint.PairText(Blueprint.Task, Blueprint.AarPair(name, dir, fileName, target, min, plainNames, fullNames),
                       "android_library_import {\n", AarImportLines(name, dir, fileName, target, min, plain),
                       "android_library {\n", AarLibraryLines(name, dir, target, min, full));
  }

  /** The AAR template is an empty line and then the `-nodeps` archive
      import listing the kept dependencies, and the library listing the
      import first and the same dependencies after it. */
  lemma {:induction false} AarModulesArePair(id: ModuleId, fileName: string, target: int, min: int, deps: seq<string>, keys: seq<string>)
    ensures AarModules(id, fileName, target, min, FormatDeps(id, deps, keys, false), FormatDeps(id, deps, keys, true)) ==
      "\n" + Blueprint.ModulesText(Blueprint.Task, AarPairOf(id, fileName, target, min, deps, keys))
  {
    FormatDepsLine(id, deps, keys, false);
    FormatDepsLine(id, deps, keys, true);
    AarTextIsPair(ModuleName(Ident(id)).value, ModulePath(id), fileName, target, min,
                  FormattedNames(id, deps, keys, false), FormattedNames(id, deps, keys, true),
                  FormatDeps(id, deps, keys, false), FormatDeps(id, deps, keys, true));
  }

  lemma {:induction false} JarImportSection(name: string, dir: string, fileName: string, target: int, min: int, fullNames: seq<string>)
    ensures Blueprint.Lines(Blueprint.Task, Blueprint.JarPair(name, dir, fileName, target, min, fullNames)[0].props) ==
      JarImportLines(name, dir, fileName, target, min)
  {
    Vendoring.NoDepsNameLine(Blueprint.Task, name);
    Vendoring.JarsLine(Blueprint.Task, dir, fileName);
    Vendoring.LevelLineIs(Blueprint.Task, "sdk_version", target);
    Vendoring.LevelLineIs(Blueprint.Task, "min_sdk_version", min);
    Vendoring.ApexLinesAre(Blueprint.Task);
  }

  lemma {:induction false} JarLibrarySection(name: string, dir: string, fileName: string, target: int, min: int,
                                             fullNames: seq<string>, full: string)
    requires Blueprint.PropertyText(Blueprint.Task, Blueprint.Property("static_libs", Blueprint.ItemList(fullNames))) == StaticLibsLine(full)
    ensures Blueprint.Lines(Blueprint.Task, Blueprint.JarPair(name, dir, fileName, target, min, fullNames)[1].props) ==
      JarLibraryLines(name, target, min, full)
  {
    Vendoring.NameLine(Blueprint.Task, name);
    Vendoring.LevelLineIs(Blueprint.Task, "sdk_version", target);
    Vendoring.LevelLineIs(Blueprint.Task, "min_sdk_version", min);
    Vendoring.ApexLinesAre(Blueprint.Task);
    Vendoring.JavaVersionLine(Blueprint.Task);
  }

  lemma {:induction false} JarTextIsPair(name: string, dir: string, fileName: string, target: int, min: int,
                                         fullNames: seq<string>, full: string)
    requires Blueprint.PropertyText(Blueprint.Task, Blueprint.Property("static_libs", Blueprint.ItemList(fullNames))) == StaticLibsLine(full)
    ensures JarText(name, dir, fileName, target, min, full) ==
      "\n" + Blueprint.ModulesText(Blueprint.Task, Blueprint.JarPair(name, dir, fileName, target, min, fullNames))
  {
    JarImportSection(name, dir, fileName, target, min, fullNames);
    JarLibrarySection(name, dir, fileName, target, min, fullNames, full);
    Blueprint.PairText(Blueprint.Task, Blueprint.JarPair(name, dir, fileName, target, min, fullNames),
                       "java_import {\n", JarImportLines(name, dir, fileName, target, min),
                       "java_library_static {\n", JarLibraryLines(name, target, min, full));
  }

  /** The JAR template is an empty line, the `-nodeps` import of the jar and
      the static library listing the import and the kept dependencies. */
  lemma {:induction false} JarModulesArePair(id: ModuleId, fileName: string, target: int, min: int, deps: seq<string>, keys: seq<string>)
    ensures JarModules(id, fileName, target, min, FormatDeps(id, deps, keys, true)) ==
      "\n" + Blueprint.ModulesText(Blueprint.Task, JarPairOf(id, fileName, target, min, deps, keys))
  {
    FormatDepsLine(id, deps, keys, true);
    JarTextIsPair(ModuleName(Ident(id)).value, ModulePath(id), fileName, target, min,
                  FormattedNames(id, deps, keys, true), FormatDeps(id, deps, keys, true));
  }

  /** What the Gradle task reads for one vendored artifact. */
  datatype Inputs = Inputs(poms: seq<Pom>, usesSdk: Option<map<string, string>>)

  /** The stanzas of one vendored artifact; an extension other than `aar`
      and `jar` fails. */
  function ModuleStanzas(a: Resolved, keys: seq<string>, inp: Inputs): (r: Result<string>)
    ensures r.Ok? <==> (a.ext == "aar" && Levels(true, inp.usesSdk).Ok?) || a.ext == "jar"
    ensures r.Ok? && a.ext == "aar" ==>
      var levels := Levels(true, inp.usesSdk).value;
      r.value == "\n" + Blueprint.ModulesText(Blueprint.Task, AarPairOf(a.id, a.fileName, levels.0, levels.1, WalkDeps(inp.poms), keys))
    ensures r.Ok? && a.ext == "jar" ==>
      r.value == "\n" + Blueprint.ModulesText(Blueprint.Task, JarPairOf(a.id, a.fileName, GradleTargetSdk, GradleMinSdk, WalkDeps(inp.poms), keys))
  {
    var deps := WalkDeps(inp.poms);
    var levels :- Levels(a.ext == "aar", inp.usesSdk);
    if a.ext == "aar" then
      AarModulesArePair(a.id, a.fileName, levels.0, levels.1, deps, keys);
      Ok(AarModules(a.id, a.fileName, levels.0, levels.1, FormatDeps(a.id, deps, keys, false), FormatDeps(a.id, deps, keys, true)))
    else if a.ext == "jar" then
      JarModulesArePair(a.id, a.fileName, levels.0, levels.1, deps, keys);
      Ok(JarModules(a.id, a.fileName, levels.0, levels.1, FormatDeps(a.id, deps, keys, true)))
    else Err("Unknown file extension: " + a.ext)
  }

  const LibsBpHeader: string := "// DO NOT EDIT THIS FILE MANUALLY"

  /** Appending to `libs/Android.bp`: an empty file first gets the header. */
  function Append(file: string, stanzas: string): (r: string)
    ensures |file| == 0 ==> |r| >= |LibsBpHeader| && r[..|LibsBpHeader|] == LibsBpHeader
    ensures |file| > 0 ==> r == file + stanzas
  {
    var base := if |file| == 0 then LibsBpHeader else file;
    assert |file| == 0 ==> (base + stanzas)[..|LibsBpHeader|] == LibsBpHeader;
    base + stanzas
  }

  /** The `forEach` over the vendored artifacts, given the stanzas of each
      in turn; the first failure ends the Gradle task. */
  function LibsBp(file: string, stanzas: seq<Result<string>>): (r: Result<string>)
    ensures r.Ok? <==> forall i :: 0 <= i < |stanzas| ==> stanzas[i].Ok?
    ensures r.Ok? && |stanzas| == 0 ==> r.value == file
    decreases |stanzas|
  {
    if |stanzas| == 0 then Ok(file)
    else
      assert forall i :: 1 <= i < |stanzas| ==> stanzas[i] == stanzas[1..][i - 1];
      var s :- stanzas[0];
      LibsBp(Append(file, s), stanzas[1..])
  }

  /** What is in the file already stays in front. */
  lemma {:induction false} LibsBpKeepsFile(file: string, stanzas: seq<Result<string>>)
    requires |file| > 0 && LibsBp(file, stanzas).Ok?
    ensures var t := LibsBp(file, stanzas).value;
      |file| <= |t| && t[..|file|] == file
    decreases |stanzas|
  {
    if |stanzas| > 0 {
      var next := Append(file, stanzas[0].value);
      LibsBpKeepsFile(next, stanzas[1..]);
      var t := LibsBp(next, stanzas[1..]).value;
      assert t[..|file|] == t[..|next|][..|file|];
    }
  }

  /** Once something is vendored the fresh `libs/Android.bp` opens with its
      header. */
  lemma {:induction false} LibsBpHeaderFirst(stanzas: seq<Result<string>>)
    requires |stanzas| > 0 && LibsBp("", stanzas).Ok?
    ensures var t := LibsBp("", stanzas).value;
      |LibsBpHeader| <= |t| && t[..|LibsBpHeader|] == LibsBpHeader
  {
    var next := Append("", stanzas[0].value);
    LibsBpKeepsFile(next, stanzas[1..]);
    var t := LibsBp(next, stanzas[1..]).value;
    assert t[..|LibsBpHeader|] == t[..|next|][..|LibsBpHeader|];
  }

  /** The stanzas of the vendored artifacts, in order. */
  function AllStanzas(vendored: seq<Resolved>, keys: seq<string>, inputs: Resolved -> Inputs): (r: seq<Result<string>>)
    ensures |r| == |vendored|
    ensures forall i :: 0 <= i < |r| ==> r[i] == ModuleStanzas(vendored[i], keys, inputs(vendored[i]))
  {
    seq(|vendored|, i requires 0 <= i < |vendored| => ModuleStanzas(vendored[i], keys, inputs(vendored[i])))
  }

  /** What the Gradle task writes: the root `Android.bp` and, starting from a
      deleted `libs` directory, `libs/Android.bp`. */
  datatype Outputs = Outputs(androidBp: string, libsBp: string)

  /** The `generateBp` task. */
  function GenerateBp(declared: seq<Declared>, rootText: string, arts: seq<Resolved>, inputs: Resolved -> Inputs): (r: Result<Outputs>)
    ensures r.Ok? ==> (RootDeps(declared).Ok? &&
      r.value.androidBp == ReplaceStaticLibs(rootText, StaticLibsReplacement(RootDeps(declared).value)))
    ensures r.Ok? <==> (RootDeps(declared).Ok? &&
      forall i :: 0 <= i < |VendoredArtifacts(arts)| ==>
        ModuleStanzas(VendoredArtifacts(arts)[i], ResolvedKeys(arts), inputs(VendoredArtifacts(arts)[i])).Ok?)
  {
    var root :- RootDeps(declared);
    var libs :- LibsBp("", AllStanzas(VendoredArtifacts(arts), ResolvedKeys(arts), inputs));
    Ok(Outputs(ReplaceStaticLibs(rootText, StaticLibsReplacement(root)), libs))
  }
}
