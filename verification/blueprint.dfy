/** The Soong blueprint modules both generators write for a vendored
    library, as structure: a module type and its properties in order, and
    the text a generator prints for them, one property per line. */
module Blueprint {
  import opened Wrappers
  import opened Strs

  /** A property value: a quoted string, a one-element list kept on the
      property's line, or a list with one quoted entry per line. */
  datatype Value = Quoted(text: string) | OneItem(item: string) | ItemList(items: seq<string>)

  datatype Property = Property(name: string, value: Value)

  datatype Module = Module(kind: string, props: seq<Property>)

  /** The two generators lay lists out the same way except when a list is
      empty: the Python script still closes it on a line of its own, the
      Gradle task writes `[]`. */
  datatype Layout = Script | Task

  /** One entry line of a list. */
  function Entry(item: string): string {
    "        \"" + item + "\","
  }

  /** The entries of a list, each preceded by a newline. */
  function Entries(items: seq<string>): (r: string)
    ensures r == "" <==> |items| == 0
    decreases |items|
  {
    if |items| == 0 then "" else "\n" + Entry(items[0]) + Entries(items[1..])
  }

  function ValueText(layout: Layout, v: Value): string {
    match v
    case Quoted(t) => "\"" + t + "\""
    case OneItem(x) => "[\"" + x + "\"]"
    case ItemList(items) =>
      if layout == Task && |items| == 0 then "[]" else "[" + Entries(items) + "\n    ]"
  }

  function PropertyText(layout: Layout, p: Property): string {
    "    " + p.name + ": " + ValueText(layout, p.value) + ",\n"
  }

  function PropertiesText(layout: Layout, ps: seq<Property>): string
    decreases |ps|
  {
    if |ps| == 0 then "" else PropertyText(layout, ps[0]) + PropertiesText(layout, ps[1..])
  }

  function ModuleText(layout: Layout, m: Module): (r: string)
    ensures |m.kind + " {\n"| <= |r| && r[..|m.kind + " {\n"|] == m.kind + " {\n"
    ensures |r| >= 2 && r[|r| - 2..] == "}\n"
  {
    var head := m.kind + " {\n";
    var r := head + (PropertiesText(layout, m.props) + "}\n");
    assert r[..|head|] == head;
    assert r[|r| - 2..] == "}\n";
    r
  }

  /** Modules separated by an empty line: the text opens with the first
      module's type and brace and closes with the last module's brace. */
  function ModulesText(layout: Layout, ms: seq<Module>): (r: string)
    ensures r == "" <==> |ms| == 0
    ensures |ms| > 0 ==> |ms[0].kind + " {\n"| <= |r| && r[..|ms[0].kind + " {\n"|] == ms[0].kind + " {\n"
    ensures |ms| > 0 ==> |r| >= 2 && r[|r| - 2..] == "}\n"
    decreases |ms|
  {
    if |ms| == 0 then ""
    else if |ms| == 1 then ModuleText(layout, ms[0])
    else
      var first := ModuleText(layout, ms[0]);
      var rest := ModulesText(layout, ms[1..]);
      var r := first + "\n" + rest;
      assert r[..|ms[0].kind + " {\n"|] == first[..|ms[0].kind + " {\n"|];
      assert r[|r| - 2..] == rest[|rest| - 2..];
      r
  }

  /** The value of the first property with the given name. */
  function Lookup(m: Module, name: string): (r: Option<Value>)
    ensures r.None? <==> forall i :: 0 <= i < |m.props| ==> m.props[i].name != name
    ensures r.Some? ==> exists i :: 0 <= i < |m.props| && m.props[i] == Property(name, r.value)
    decreases |m.props|
  {
    if |m.props| == 0 then None
    else if m.props[0].name == name then Some(m.props[0].value)
    else
      var r := Lookup(Module(m.kind, m.props[1..]), name);
      assert forall i :: 1 <= i < |m.props| ==> m.props[i] == m.props[1..][i - 1];
      r
  }

  /** Pieces of text one after another. */
  function Concat(pieces: seq<string>): string
    decreases |pieces|
  {
    if |pieces| == 0 then "" else pieces[0] + Concat(pieces[1..])
  }

  /** The line of every property, in order. */
  function Lines(layout: Layout, ps: seq<Property>): (r: seq<string>)
    ensures |r| == |ps| && forall i :: 0 <= i < |ps| ==> r[i] == PropertyText(layout, ps[i])
  {
    seq(|ps|, i requires 0 <= i < |ps| => PropertyText(layout, ps[i]))
  }

  lemma {:induction false} PropertiesConcat(layout: Layout, ps: seq<Property>)
    ensures PropertiesText(layout, ps) == Concat(Lines(layout, ps))
    decreases |ps|
  {
    if |ps| > 0 {
      PropertiesConcat(layout, ps[1..]);
      assert Lines(layout, ps)[1..] == Lines(layout, ps[1..]);
    }
  }

  /** Two modules, written out: each type and its opening brace, the
      property lines and the closing brace, with an empty line between
      them. */
  lemma {:induction false} PairText(layout: Layout, ms: seq<Module>, head0: string, lines0: seq<string>,
                                    head1: string, lines1: seq<string>)
    requires |ms| == 2
    requires ms[0].kind + " {\n" == head0 && Lines(layout, ms[0].props) == lines0
    requires ms[1].kind + " {\n" == head1 && Lines(layout, ms[1].props) == lines1
    ensures ModulesText(layout, ms) == (head0 + (Concat(lines0) + "}\n")) + "\n" + (head1 + (Concat(lines1) + "}\n"))
  {
    PropertiesConcat(layout, ms[0].props);
    PropertiesConcat(layout, ms[1].props);
  }

  /** A list with entries is printed alike by both generators: the opening
      bracket, one line per entry and the closing bracket on its own line. */
  lemma {:induction false} ItemListLines(layout: Layout, name: string, items: seq<string>)
    requires layout == Script || |items| > 0
    ensures PropertyText(layout, Property(name, ItemList(items))) == "    " + name + ": [" + Entries(items) + "\n    ],\n"
  {
  }

  /** An empty list is where the two layouts part: the Python script closes
      it on a line of its own, the Gradle task writes `[]`. */
  lemma EmptyListLayoutsDiffer(name: string)
    ensures PropertyText(Script, Property(name, ItemList([]))) != PropertyText(Task, Property(name, ItemList([])))
  {
    var n := |"    " + name + ": "|;
    assert PropertyText(Script, Property(name, ItemList([])))[n + 1] == '\n';
    assert PropertyText(Task, Property(name, ItemList([])))[n + 1] == ']';
  }

  /** A module none of whose lists is empty reads the same from both
      generators. */
  predicate NoEmptyList(m: Module) {
    forall i :: 0 <= i < |m.props| ==> m.props[i].value.ItemList? ==> |m.props[i].value.items| > 0
  }

  lemma {:induction false} PropertiesLayoutsAgree(ps: seq<Property>)
    requires forall i :: 0 <= i < |ps| ==> ps[i].value.ItemList? ==> |ps[i].value.items| > 0
    ensures PropertiesText(Script, ps) == PropertiesText(Task, ps)
    decreases |ps|
  {
    if |ps| > 0 {
      assert forall i :: 0 <= i < |ps| - 1 ==> ps[1..][i] == ps[i + 1];
      PropertiesLayoutsAgree(ps[1..]);
    }
  }

  lemma {:induction false} LayoutsAgree(ms: seq<Module>)
    requires forall k :: 0 <= k < |ms| ==> NoEmptyList(ms[k])
    ensures ModulesText(Script, ms) == ModulesText(Task, ms)
    decreases |ms|
  {
    if |ms| > 0 {
      PropertiesLayoutsAgree(ms[0].props);
      if |ms| > 1 {
        assert forall k :: 0 <= k < |ms| - 1 ==> ms[1..][k] == ms[k + 1];
        LayoutsAgree(ms[1..]);
      }
    }
  }

  // ---------------------------------------------------------------------
  // The modules of a vendored library

  /** Where a vendored module may be used: the platform and any APEX. */
  const ApexTargets: seq<string> := ["//apex_available:platform", "//apex_available:anyapex"]

  const ApexAvailable: Property := Property("apex_available", ItemList(ApexTargets))

  function SdkVersion(target: int): Property {
    Property("sdk_version", Quoted(IntToString(target)))
  }

  function MinSdkVersion(min: int): Property {
    Property("min_sdk_version", Quoted(IntToString(min)))
  }

  /** The modules of a vendored AAR named `name`, stored as `dir/file`: the
      `-nodeps` import of the archive listing `importLibs`, then the library
      wrapping it with the manifest from `dir` and listing `libraryLibs`.
      Both carry the API levels and the APEX availability. */
  function AarPair(name: string, dir: string, file: string, target: int, min: int,
                   importLibs: seq<string>, libraryLibs: seq<string>): seq<Module>
  {
    [Module("android_library_import",
       [Property("name", Quoted(name + "-nodeps")), Property("aars", OneItem(dir + "/" + file)),
        SdkVersion(target), MinSdkVersion(min), ApexAvailable,
        Property("static_libs", ItemList(importLibs))]),
     Module("android_library",
       [Property("name", Quoted(name)),
        SdkVersion(target), MinSdkVersion(min), ApexAvailable,
        Property("manifest", Quoted(dir + "/AndroidManifest.xml")),
        Property("static_libs", ItemList(libraryLibs)),
        Property("java_version", Quoted("1.7"))])]
  }

  /** The modules of a vendored JAR: the `-nodeps` import without a
      dependency list, then the static library listing `libraryLibs`. */
  function JarPair(name: string, dir: string, file: string, target: int, min: int,
                   libraryLibs: seq<string>): seq<Module>
  {
    [Module("java_import",
       [Property("name", Quoted(name + "-nodeps")), Property("jars", OneItem(dir + "/" + file)),
        SdkVersion(target), MinSdkVersion(min), ApexAvailable]),
     Module("java_library_static",
       [Property("name", Quoted(name)),
        SdkVersion(target), MinSdkVersion(min), ApexAvailable,
        Property("static_libs", ItemList(libraryLibs)),
        Property("java_version", Quoted("1.7"))])]
  }

  /** A module carries the API levels and the APEX availability. */
  predicate LevelsAndApex(m: Module, target: int, min: int) {
    Lookup(m, "sdk_version") == Some(Quoted(IntToString(target))) &&
    Lookup(m, "min_sdk_version") == Some(Quoted(IntToString(min))) &&
    Lookup(m, "apex_available") == Some(ItemList(ApexTargets))
  }

  /** With a non-empty dependency list on the import, the Python script
      and the Gradle task print an AAR's pair identically. */
  lemma {:induction false} AarPairLayoutsAgree(name: string, dir: string, file: string, target: int, min: int,
                                               importLibs: seq<string>, libraryLibs: seq<string>)
    requires |importLibs| > 0 && |libraryLibs| > 0
    ensures ModulesText(Script, AarPair(name, dir, file, target, min, importLibs, libraryLibs)) ==
            ModulesText(Task, AarPair(name, dir, file, target, min, importLibs, libraryLibs))
  {
    var ms := AarPair(name, dir, file, target, min, importLibs, libraryLibs);
    assert NoEmptyList(ms[0]) && NoEmptyList(ms[1]);
    LayoutsAgree(ms);
  }

  /** The two generators print a JAR's pair identically once the library
      lists something, as both always list the `-nodeps` import. */
  lemma {:induction false} JarPairLayoutsAgree(name: string, dir: string, file: string, target: int, min: int,
                                               libraryLibs: seq<string>)
    requires |libraryLibs| > 0
    ensures ModulesText(Script, JarPair(name, dir, file, target, min, libraryLibs)) ==
            ModulesText(Task, JarPair(name, dir, file, target, min, libraryLibs))
  {
    var ms := JarPair(name, dir, file, target, min, libraryLibs);
    assert NoEmptyList(ms[0]) && NoEmptyList(ms[1]);
    LayoutsAgree(ms);
  }

  /** The first property of a name gives the lookup's value. */
  lemma {:induction false} LookupAt(m: Module, i: int)
    requires 0 <= i < |m.props|
    requires forall j :: 0 <= j < i ==> m.props[j].name != m.props[i].name
    ensures Lookup(m, m.props[i].name) == Some(m.props[i].value)
    decreases i
  {
    if i > 0 {
      var tail := Module(m.kind, m.props[1..]);
      assert forall j :: 0 <= j < i - 1 ==> tail.props[j] == m.props[j + 1];
      LookupAt(tail, i - 1);
    }
  }

  /** A module whose level and APEX properties follow its name (and its
      archive) carries the levels and the APEX availability. */
  lemma {:induction false} LevelsAndApexAt(m: Module, target: int, min: int, i: int)
    requires 1 <= i <= 2 && i + 3 <= |m.props|
    requires m.props[i] == SdkVersion(target) && m.props[i + 1] == MinSdkVersion(min) && m.props[i + 2] == ApexAvailable
    requires forall j :: 0 <= j < i ==> m.props[j].name in {"name", "aars", "jars"}
    ensures LevelsAndApex(m, target, min)
  {
    LookupAt(m, i);
    LookupAt(m, i + 1);
    LookupAt(m, i + 2);
  }

  /** The AAR pair, property by property: the import is the `-nodeps`
      module holding the archive, the library names the manifest, each
      lists its own dependencies, and both carry the levels and the APEX
      availability. */
  lemma {:induction false} AarPairProperties(name: string, dir: string, file: string, target: int, min: int,
                                             importLibs: seq<string>, libraryLibs: seq<string>)
    ensures var r := AarPair(name, dir, file, target, min, importLibs, libraryLibs);
      |r| == 2 && r[0].kind == "android_library_import" && r[1].kind == "android_library" &&
      Lookup(r[0], "name") == Some(Quoted(name + "-nodeps")) && Lookup(r[1], "name") == Some(Quoted(name)) &&
      Lookup(r[0], "aars") == Some(OneItem(dir + "/" + file)) && Lookup(r[1], "aars").None? &&
      Lookup(r[1], "manifest") == Some(Quoted(dir + "/AndroidManifest.xml")) &&
      Lookup(r[0], "static_libs") == Some(ItemList(importLibs)) &&
      Lookup(r[1], "static_libs") == Some(ItemList(libraryLibs)) &&
      LevelsAndApex(r[0], target, min) && LevelsAndApex(r[1], target, min)
  {
    AarImportProperties(name, dir, file, target, min, importLibs, libraryLibs);
    AarLibraryProperties(name, dir, file, target, min, importLibs, libraryLibs);
    AarPairLevels(name, dir, file, target, min, importLibs, libraryLibs);
    AarPairAbsent(name, dir, file, target, min, importLibs, libraryLibs);
  }

  /** Only the import holds the archive. */
  lemma AarPairAbsent(name: string, dir: string, file: string, target: int, min: int,
                      importLibs: seq<string>, libraryLibs: seq<string>)
    ensures Lookup(AarPair(name, dir, file, target, min, importLibs, libraryLibs)[1], "aars").None?
  {
  }

  lemma {:induction false} AarImportProperties(name: string, dir: string, file: string, target: int, min: int,
                                               importLibs: seq<string>, libraryLibs: seq<string>)
    ensures Lookup(AarPair(name, dir, file, target, min, importLibs, libraryLibs)[0], "name") == Some(Quoted(name + "-nodeps"))
    ensures Lookup(AarPair(name, dir, file, target, min, importLibs, libraryLibs)[0], "aars") == Some(OneItem(dir + "/" + file))
    ensures Lookup(AarPair(name, dir, file, target, min, importLibs, libraryLibs)[0], "static_libs") == Some(ItemList(importLibs))
  {
    var a := AarPair(name, dir, file, target, min, importLibs, libraryLibs)[0];
    LookupAt(a, 0);
    LookupAt(a, 1);
    LookupAt(a, 5);
  }

  lemma {:induction false} AarLibraryProperties(name: string, dir: string, file: string, target: int, min: int,
                                                importLibs: seq<string>, libraryLibs: seq<string>)
    ensures Lookup(AarPair(name, dir, file, target, min, importLibs, libraryLibs)[1], "name") == Some(Quoted(name))
    ensures Lookup(AarPair(name, dir, file, target, min, importLibs, libraryLibs)[1], "manifest") == Some(Quoted(dir + "/AndroidManifest.xml"))
    ensures Lookup(AarPair(name, dir, file, target, min, importLibs, libraryLibs)[1], "static_libs") == Some(ItemList(libraryLibs))
  {
    var b := AarPair(name, dir, file, target, min, importLibs, libraryLibs)[1];
    LookupAt(b, 0);
    LookupAt(b, 4);
    LookupAt(b, 5);
  }

  lemma {:induction false} AarPairLevels(name: string, dir: string, file: string, target: int, min: int,
                                         importLibs: seq<string>, libraryLibs: seq<string>)
    ensures LevelsAndApex(AarPair(name, dir, file, target, min, importLibs, libraryLibs)[0], target, min)
    ensures LevelsAndApex(AarPair(name, dir, file, target, min, importLibs, libraryLibs)[1], target, min)
  {
    var r := AarPair(name, dir, file, target, min, importLibs, libraryLibs);
    LevelsAndApexAt(r[0], target, min, 2);
    LevelsAndApexAt(r[1], target, min, 1);
  }

  /** The JAR pair, property by property: the import is the `-nodeps`
      module holding the archive and lists no dependencies, the library
      lists its own, and both carry the levels and the APEX availability. */
  lemma {:induction false} JarPairProperties(name: string, dir: string, file: string, target: int, min: int,
                                             libraryLibs: seq<string>)
    ensures var r := JarPair(name, dir, file, target, min, libraryLibs);
      |r| == 2 && r[0].kind == "java_import" && r[1].kind == "java_library_static" &&
      Lookup(r[0], "name") == Some(Quoted(name + "-nodeps")) && Lookup(r[1], "name") == Some(Quoted(name)) &&
      Lookup(r[0], "jars") == Some(OneItem(dir + "/" + file)) && Lookup(r[1], "jars").None? &&
      Lookup(r[0], "static_libs").None? &&
      Lookup(r[1], "static_libs") == Some(ItemList(libraryLibs)) &&
      LevelsAndApex(r[0], target, min) && LevelsAndApex(r[1], target, min)
  {
    JarPairNames(name, dir, file, target, min, libraryLibs);
    JarPairLevels(name, dir, file, target, min, libraryLibs);
    JarPairAbsent(name, dir, file, target, min, libraryLibs);
  }

  /** Only the import holds the archive, and it lists no dependencies. */
  lemma JarPairAbsent(name: string, dir: string, file: string, target: int, min: int, libraryLibs: seq<string>)
    ensures Lookup(JarPair(name, dir, file, target, min, libraryLibs)[0], "static_libs").None?
    ensures Lookup(JarPair(name, dir, file, target, min, libraryLibs)[1], "jars").None?
  {
  }

  lemma {:induction false} JarPairNames(name: string, dir: string, file: string, target: int, min: int,
                                        libraryLibs: seq<string>)
    ensures Lookup(JarPair(name, dir, file, target, min, libraryLibs)[0], "name") == Some(Quoted(name + "-nodeps"))
    ensures Lookup(JarPair(name, dir, file, target, min, libraryLibs)[0], "jars") == Some(OneItem(dir + "/" + file))
    ensures Lookup(JarPair(name, dir, file, target, min, libraryLibs)[1], "name") == Some(Quoted(name))
    ensures Lookup(JarPair(name, dir, file, target, min, libraryLibs)[1], "static_libs") == Some(ItemList(libraryLibs))
  {
    var r := JarPair(name, dir, file, target, min, libraryLibs);
    LookupAt(r[0], 0);
    LookupAt(r[0], 1);
    LookupAt(r[1], 0);
    LookupAt(r[1], 4);
  }

  lemma {:induction false} JarPairLevels(name: string, dir: string, file: string, target: int, min: int,
                                         libraryLibs: seq<string>)
    ensures LevelsAndApex(JarPair(name, dir, file, target, min, libraryLibs)[0], target, min)
    ensures LevelsAndApex(JarPair(name, dir, file, target, min, libraryLibs)[1], target, min)
  {
    var r := JarPair(name, dir, file, target, min, libraryLibs);
    LevelsAndApexAt(r[0], target, min, 2);
    LevelsAndApexAt(r[1], target, min, 1);
  }
}
