# Aperture vendoring pipeline and camera helpers, modelled in Dafny

This project models two parts of the LineageOS camera app (Aperture, and its older copy "Selfie").

**The dependency-vendoring pipeline.** This is `app/update_libs.py` driven by the tables in `app/libs.py`. It turns each dependency entry (Maven group, artifact, version and repository) into a `Library`. The steps are:
- name the library's Soong module;
- download its AAR or JAR and its POM into `libs/`;
- read the POM's compile dependencies and the AAR manifest's platform levels;
- rewrite the `static_libs` list of the root `Android.bp` between its markers;
- write `libs/Android.bp` with one `android_library_import` or `java_import` stanza per vendored library;
- optionally rewrite the `dependencies {}` block of the Gradle build file.

The Gradle twin of this pipeline, the `generateBp` task in `app/build.gradle.kts`, is modelled as well. It covers the naming rules, the AOSP-availability rule, the root list rewrite, the POM walk, the manifest levels and the stanza rendering.

**The small Kotlin helpers of the app.** They are:
- cyclic `next`/`previous` on lists, arrays and enums, and `getOrCreate` on maps and lists;
- the mode enums: grid, flash, timer, frame rate, stabilization and video stabilization;
- every setting kept in `SharedPreferences` and its text codec;
- the camera manager's camera lists and flip order;
- the device-overlay triples for extra frame rates and zoom ratios;
- the camera types;
- the flash and capture-request options;
- the Exif orientation table;
- the screen rotation and level indicator;
- the duration formatter;
- the media-store query builder;
- the Wi-Fi QR-code parser and suggestion builder;
- the voice-assistant intent;
- the self-timer countdown;
- the luma-plane rotation used for QR decoding.

Everything is a pure function over immutable datatypes. The things the program gets from outside are passed in as parameters:
- the network, the POM and manifest parsers and the file system of the script;
- the preferences file;
- the camera provider's camera list;
- the overlay's resource arrays;
- float parsing.

Loops of the source that matter are written as methods with invariants and proved equal to the functional definition:
- the managed-block rewrite;
- `spaces`;
- the luma rotation.

Each file holds one module:

| file | module | models |
|---|---|---|
| wrappers.dfy | Wrappers | `Option` (Kotlin nullable, Python `None`) and `Result` (raise/throw) |
| seqs.dfy, strs.dfy, sorting.dfy | Seqs, Strs, Sorting | the collection and string operations the sources use |
| blueprint.dfy | Blueprint | the `Android.bp` module pairs both generators write: the stanza templates of `app/update_libs.py` and the stanza strings of `generateBp` |
| libs.dfy | Libs | `app/libs.py` |
| vendoring.dfy | Vendoring | `Library` of `app/update_libs.py` |
| blocks.dfy | ManagedBlock | the marker-delimited rewrite loop of `main` |
| updatelibs.dfy | UpdateLibs | `main` of `app/update_libs.py` |
| gradlebp.dfy, gradlemodules.dfy | GradleBp, GradleModules | `generateBp` in `app/build.gradle.kts` |
| cycle.dfy, containers.dfy | Cycle, Containers | `ext/List.kt`, `ext/Array.kt`, `ext/Collections.kt`, `ext/Enum.kt`, `ext/MutableMap.kt`, `ext/MutableList.kt` |
| modes.dfy | Modes | grid, flash, timer, frame-rate, stabilization enums |
| codec.dfy, prefs.dfy | Codec, Prefs | the `SharedPreferences` extensions and utilities of both apps |
| controls.dfy | Controls | `ext/CameraController.kt`, `CaptureRequestOptionsBuilderExt.kt` |
| exif.dfy | Exif | `utils/ExifUtils.kt` |
| cameratype.dfy | CameraTypes | `utils/CameraType.kt` |
| cameras.dfy | Cameras | both `CameraManager.kt` files |
| overlay.dfy | Overlay | `utils/OverlayConfiguration.kt` and the overlay parsing in `camera/CameraManager.kt` |
| orientation.dfy | Orientation | `utils/Rotation.kt`, `ui/LevelerView.kt` |
| timefmt.dfy | TimeFormat | both `TimeUtils.kt` files |
| query.dfy | Query | `query/Query.kt` |
| wifi.dfy | Wifi | both `WifiNetwork.kt` files |
| assistant.dfy | Assistant | `models/AssistantIntent.kt` |
| countdown.dfy | CountDown | `ui/CountDownView.kt` |
| imageproxy.dfy | ImageProxy | `ImageProxyExt.kt` |

The Kotlin sources in the table below all lie under `app/src/main/java/org/lineageos/`.

## Model

| member | source | states |
|---|---|---|
| Libs.Alias | app/update_libs.py:202 | an aliased name maps to its AOSP module, any other name to itself, and the result is never an alias key itself, so a second lookup cannot move it again |
| Libs.DepsReposKnown | app/libs.py:14-66 | every repository a dependency entry names is a key of the repository table, so no entry raises `KeyError` |
| Libs.SdkRepoEmpty | app/libs.py:14-20 | the prebuilt repository `sdk` is present and has the empty URL |
| Libs.AliasIdempotent | app/libs.py:69-80 | no alias target is itself an alias key, so aliasing twice is aliasing once |
| Libs.IgnoreNotAliased | app/libs.py:83-85 | the ignore list is exactly the Kotlin common stdlib, which has no alias, so ignoring happens before aliasing without conflict |
| Libs.DepsCoordinatesDistinct | app/libs.py:27-66 | no two dependency entries share a group and artifact |
| Libs.DefaultLevelsOrdered | app/libs.py:88-91 | the default levels are 31 and 14, the minimum not above the target |
| Vendoring.TargetName | app/update_libs.py:102-106 | the module name is the alias when there is one, otherwise `group_artifact`, prefixed with `Selfie_` exactly for non-prebuilt entries; looking the name up in the alias table again, as the root list does at line 257, leaves it unchanged |
| Vendoring.AppPrefixedNotAliased | app/update_libs.py:105-106 | an app-prefixed name is never an alias key |
| Vendoring.NewLibrary | app/update_libs.py:89-123 | construction fails exactly for a repository missing from the table; otherwise it keeps the entry, its repository URL and target name, no dependencies, no file and the default levels |
| Vendoring.GradleNameSplits | app/update_libs.py:101 | the Gradle coordinate splits at `:` back into group, artifact and version when none contains a colon |
| Vendoring.RelativePathPlain | app/update_libs.py:112 | without empty components the storage path is the group's dotted components, then the artifact and the version |
| Vendoring.UrlMatchesPath | app/update_libs.py:110-112 | the download URL is the repository URL followed by the same path the library is stored under |
| Vendoring.FileNamesDistinct | app/update_libs.py:115-118 | the AAR, JAR and POM file names are pairwise distinct |
| Vendoring.CompileDepsIsFilter | app/update_libs.py:147-157 | the recorded dependencies are, position by position, the POM entries without a scope or with scope `compile` |
| Vendoring.Prefixes | app/update_libs.py:130-131 | `mkdir(parents=True)` leaves the directory and only its ancestors existing |
| Vendoring.AttrInt | app/update_libs.py:168-171 | a missing attribute gives the default; a present one gives its integer value, and a non-numeric one raises |
| Vendoring.ReadLevels | app/update_libs.py:159-171 | an AAR without a manifest fails; a manifest without either attribute gives the default levels |
| Vendoring.FetchFiles | app/update_libs.py:133-144 | the fetch succeeds exactly when the AAR or else the JAR, and the POM, are answered with 200, and the JAR is requested only after the AAR failed |
| Vendoring.Record | app/update_libs.py:146-174 | the library keeps its identity and records the fetched file; it fails when the POM cannot be read (not well-formed XML at line 147, or a dependency without `groupId` or `artifactId` at lines 151-152), and otherwise records exactly the compile dependencies; a JAR takes the default levels, and an AAR fails exactly when the POM or its manifest levels do not read and otherwise takes the levels read |
| Vendoring.Download | app/update_libs.py:125-178 | a prebuilt is left alone; an existing library directory fails; a success creates the directory and its ancestors, fetches and records the library |
| Vendoring.CollisionIgnoresNetwork | app/update_libs.py:130-131 | a directory collision fails before any request, whatever the network answers |
| Vendoring.DuplicateDownloadFails | app/update_libs.py:130-131 | downloading the same non-prebuilt entry a second time fails |
| Vendoring.LibraryFile | app/update_libs.py:180-186 | the library path is the AAR when there is one, else the JAR, else an exception |
| Vendoring.DownloadedHasFile | app/update_libs.py:133-140 | every successful download of a non-prebuilt has a library file |
| Vendoring.FindKnown | app/update_libs.py:205-208 | the first known library with the dependency's group and artifact, or none when no library has them |
| Vendoring.DepName | app/update_libs.py:195-210 | an ignored dependency contributes nothing; a known library contributes its target name, any other its alias |
| Vendoring.DepNamesAppend | app/update_libs.py:193-210 | dependency names are produced one dependency at a time, in order |
| Vendoring.DepNamesSingle | app/update_libs.py:197-210 | one dependency contributes nothing when ignored and exactly its name otherwise |
| Vendoring.SoongDepNames | app/update_libs.py:213 | the module's dependency names are duplicate-free, are exactly the translated names, and keep the order of each name's first appearance, as `dict.fromkeys` does |
| Vendoring.RenderDepsIsEntries | app/update_libs.py:215 | the rendered list is empty, or each entry line preceded by a newline |
| Vendoring.AarStanzaIsPair | app/update_libs.py:31-59 | the AAR template is, character for character, the `-nodeps` `android_library_import` of the archive listing the dependencies, then the `android_library` with the manifest that lists the `-nodeps` module and the dependencies, both with the library's levels and the platform and any-APEX availability |
| Vendoring.JarStanzaIsPair | app/update_libs.py:61-86 | the JAR template is, character for character, the `-nodeps` `java_import` of the archive without a dependency list, then the `java_library_static` listing the `-nodeps` module and the dependencies, both with the library's levels and the platform and any-APEX availability |
| Vendoring.SoongModule | app/update_libs.py:188-220 | a prebuilt raises; a library without a file gives nothing; an AAR gives the AAR module pair and a JAR the JAR module pair, each listing the module's de-duplicated dependency names |
| Blueprint.ModulesText | app/update_libs.py:31-86 | a run of module stanzas is empty exactly when there are no modules; otherwise it opens with the first module's type and `{` and closes with a `}` line |
| Blueprint.AarPairProperties | app/update_libs.py:31-59 | an AAR gives two modules: the `android_library_import` named `<name>-nodeps`, whose `aars` is the archive inside the library's directory and whose `static_libs` is the import's list; then the `android_library` named `<name>`, without an archive, with that directory's `AndroidManifest.xml` and its own `static_libs`; both have `sdk_version` and `min_sdk_version` as the levels' decimal text and the platform and any-APEX availability |
| Blueprint.JarPairProperties | app/update_libs.py:61-86 | a JAR gives two modules: the `java_import` named `<name>-nodeps`, whose `jars` is the archive inside the library's directory and which has no `static_libs`; then the `java_library_static` named `<name>`, without an archive, with its `static_libs`; both have the levels and the platform and any-APEX availability |
| Blueprint.LayoutsAgree | app/build.gradle.kts:305-364 | modules that hold no empty list print the same under the Python templates and under the Gradle strings |
| Blueprint.AarPairLayoutsAgree | app/build.gradle.kts:305-334 | when both dependency lists are non-empty, the Gradle task prints an AAR's pair exactly as the Python script does |
| Blueprint.JarPairLayoutsAgree | app/build.gradle.kts:337-364 | when the library's list is non-empty (it always holds the `-nodeps` import), the Gradle task prints a JAR's pair exactly as the Python script does |
| Blueprint.EmptyListLayoutsDiffer | app/update_libs.py:41-42 | an empty list is where the two generators differ: the script closes it on a line of its own, while the Gradle task (app/build.gradle.kts:318) writes `[]` |
| ManagedBlock.RewriteLines | app/update_libs.py:245-259 | the line loop computes the functional rewrite |
| ManagedBlock.Emit | app/update_libs.py:247-259 | inside a block every line but the closing marker is dropped; any other line is written first |
| ManagedBlock.ScanOutside | app/update_libs.py:253-259 | lines before the opening marker are copied unchanged |
| ManagedBlock.ScanInside | app/update_libs.py:248-252 | lines inside the block up to the closing marker are dropped |
| ManagedBlock.RewriteWithoutBlock | app/update_libs.py:245-259 | a file without an opening marker is left unchanged |
| ManagedBlock.RewriteBlock | app/update_libs.py:245-259 | a block is replaced by the new body between its kept markers, and everything around it is kept |
| ManagedBlock.RewriteUnterminated | app/update_libs.py:248-252 | an opening marker without a closing one drops the rest of the file after the new body |
| ManagedBlock.SplitLines | app/update_libs.py:239 | `splitlines` gives newline-free lines that join back to the text, less a final newline |
| ManagedBlock.RewriteTextWithoutBlock | app/update_libs.py:239-261 | a newline-terminated file without a block is written back byte for byte |
| ManagedBlock.RewriteTextLines | app/update_libs.py:239-261 | reading the written file back gives the rewritten lines |
| ManagedBlock.ScanNoNewline | app/update_libs.py:245-259 | the rewrite never puts a newline inside a line |
| UpdateLibs.ResolveAllEntries | app/update_libs.py:229-235 | a successful resolution has one library per entry, in order, with the entry's target name, and every repository was known |
| UpdateLibs.ResolveCollision | app/update_libs.py:130-131 | a first non-prebuilt entry whose directory already exists fails the whole run |
| UpdateLibs.ResolveAllCons | app/update_libs.py:230-235 | a successful resolution is the first library's download followed by the resolution of the rest in the directories it left |
| UpdateLibs.ResolvedHaveFiles | app/update_libs.py:230-235 | after a successful resolution every non-prebuilt library has a file |
| UpdateLibs.ResolvedAt | app/update_libs.py:229-235 | library `i` of a successful resolution is built from entry `i`, whose repository is known, and has a file unless it is a prebuilt |
| UpdateLibs.RootBody | app/update_libs.py:256-257 | the root list is the header line followed by one line per library |
| UpdateLibs.RootBodyNames | app/update_libs.py:257 | line `i + 1` of the root list names library `i` by its target name |
| UpdateLibs.StanzasOk | app/update_libs.py:265-269 | the stanzas render exactly when every non-prebuilt library has a file |
| UpdateLibs.LibsAndroidBp | app/update_libs.py:264-269 | `libs/Android.bp` opens with its header and renders exactly when every non-prebuilt library has a file |
| UpdateLibs.GradleDep | app/update_libs.py:281-285 | a prebuilt is always quoted coordinates; a vendored library renders exactly when it has a file |
| UpdateLibs.GradleBody | app/update_libs.py:280-302 | the Gradle block is the header and one `implementation` line per library, and fails only on a library without a file |
| UpdateLibs.Run | app/update_libs.py:222-306 | a successful run resolved every entry, wrote the rewritten root list and wrote the Gradle file exactly when enabled |
| UpdateLibs.RunFailsOnlyInResolve | app/update_libs.py:222-306 | once every entry resolves, the run with the script's settings succeeds |
| GradleBp.ModuleStringIsGradleName | app/build.gradle.kts:107 | the Gradle task's `group:name:version` coordinate is the one the Python script prints for the same library |
| GradleBp.Spaces | app/build.gradle.kts:111-117 | `spaces(n)` is exactly `n` blanks, and none for a count of zero or less |
| GradleBp.SpacesLoop | app/build.gradle.kts:111-117 | the counting-down loop builds the same text as the recursive `spaces`, `n` blanks and none for `n <= 0` |
| GradleBp.ModuleNameOf | app/build.gradle.kts:124-131 | a string without a colon is only prefixed with the project name |
| GradleBp.ModuleName | app/build.gradle.kts:119-136 | an argument of any other type throws; an identifier names `Aperture_<group>_<name>`; a string is named by its own spelling |
| GradleBp.ModuleNameSpellingsAgree | app/build.gradle.kts:121-130 | `group:name` as a string and the identifier itself give the same module name |
| GradleBp.NoDepsNameAgrees | app/build.gradle.kts:124-130 | the underscore spelling of a `-nodeps` entry names the identifier's module with `-nodeps` appended |
| GradleBp.ModuleNameAosp | app/build.gradle.kts:138-149 | both Guava coordinates map to the single platform module `guava` |
| GradleBp.ModuleNameAospIsRawName | app/build.gradle.kts:147 | outside the seven special cases the platform name is the coordinate with its colon turned into an underscore, as in the Python script |
| GradleBp.CameraNeverAvailable | app/build.gradle.kts:153-157 | no `androidx.camera` group is ever taken from the platform, whatever the artifact |
| GradleBp.AvailabilityOutsidePrefixes | app/build.gradle.kts:159-163 | outside the `androidx` and `org.jetbrains` prefixes only the three named groups come from the platform |
| GradleBp.RootLine | app/build.gradle.kts:175-179 | a declared dependency renders exactly when it has a group |
| GradleBp.RootLinesOk | app/build.gradle.kts:171-180 | the lines render, one per dependency and in order, exactly when every dependency has a group |
| GradleBp.RootDepsFailsOnlyOnMissingGroup | app/build.gradle.kts:170-181 | the root list fails exactly when a dependency that survives the Kotlin filter lacks a group |
| GradleBp.ReplaceWithoutMatch | app/build.gradle.kts:184-188 | text with no `static_libs: [` is written back unchanged |
| GradleBp.ReplaceOneList | app/build.gradle.kts:184-188 | the lazy match replaces a list up to its first `]` and then carries on after it |
| GradleBp.VendoredArtifacts | app/build.gradle.kts:193-203 | the copied artifacts are input artifacts not provided by the platform (tested on the module's group and the artifact's own name), sorted by coordinate, one per coordinate. The one kept for a coordinate is the first artifact resolved for it, and a coordinate is copied exactly when that first artifact is not provided by the platform |
| GradleBp.ModuleIdFromString | app/build.gradle.kts:107 | colon-free coordinates determine group and name, so de-duplicating by coordinate string is de-duplicating by module |
| GradleBp.VendoredFromInput | app/build.gradle.kts:193-203 | the skip step only drops artifacts: whatever is copied came from the resolved set |
| GradleBp.VendoredCovers | app/build.gradle.kts:195-203 | when every artifact is named after its module, `distinctBy` loses no coordinate, so every vendored coordinate is copied |
| GradleBp.VendoredFirst | app/build.gradle.kts:193-197 | the stable sort keeps each module's first artifact first, and `distinctBy` keeps exactly that one, so a coordinate is copied exactly when its first artifact is vendored |
| GradleBp.SortedFirst | app/build.gradle.kts:193-195 | `sortedBy` does not change which artifact of a module comes first |
| GradleBp.FirstVendoredKept | app/build.gradle.kts:193-203 | a module whose first resolved artifact is vendored is copied |
| GradleBp.KeptIsFirstVendored | app/build.gradle.kts:195-203 | a copied module's first resolved artifact is the copied one, so it is vendored |
| GradleBp.VendoredOrdered | app/build.gradle.kts:193-203 | skipping platform modules keeps the list sorted and its coordinates distinct |
| Sorting.SortBy | app/build.gradle.kts:193-195 | `sortedBy` returns the same elements, ordered by key as Kotlin compares strings (by UTF-16 code units), and is stable: the elements of each key keep their relative order |
| Sorting.CharUnits | app/build.gradle.kts:193-195 | a character below U+10000 is one UTF-16 code unit equal to its value; any other is a high surrogate and then a low surrogate that together encode it |
| Sorting.Utf16Injective | app/build.gradle.kts:193-195 | different strings have different UTF-16 encodings |
| Sorting.LexLeAntisym | app/build.gradle.kts:193-195 | two strings each `<=` the other are equal, so the string order is a total order on keys |
| Sorting.SupplementaryBeforeHighBmp | app/build.gradle.kts:193-195 | the emoji U+1F600 sorts before the fullwidth `A` (U+FF21), though its code point is larger, because its high surrogate 0xD83D is below 0xFF21 |
| Sorting.DistinctBy | app/build.gradle.kts:195-197 | `distinctBy` keeps, for every key present, exactly one element: the first with that key, and keeps a sorted input sorted |
| Sorting.InsertStable | app/build.gradle.kts:193-195 | inserting into a sorted list places the new element behind no element of its own key |
| GradleModules.PomDeps | app/build.gradle.kts:218-232 | one `group:artifact` per child of the first `dependencies` element, none when there is no such element |
| GradleModules.PomDepsFirstElementOnly | app/build.gradle.kts:219 | a second `dependencies` element is never read |
| GradleModules.PomDepsCoverScriptDeps | app/build.gradle.kts:218-232 | every compile dependency the Python script reads from a POM is also read by the Gradle task, which ignores the scopes |
| GradleModules.WalkDepsMembers | app/build.gradle.kts:213-233 | the flattened walk holds every dependency of every POM found and nothing else |
| GradleModules.LevelsAsWritten | app/build.gradle.kts:235-250 | a JAR keeps the defaults; an AAR without `uses-sdk` fails on `first()`; any other AAR keeps the defaults too, because the plain-name attribute lookups on the namespace-aware parse find nothing |
| GradleModules.LevelsAsWrittenLoseMinSdk | app/build.gradle.kts:248-249 | for a manifest declaring minimum level 21 the as-written reading gives the default 14, while the corrected one reads 21 |
| GradleModules.LevelsAsWrittenAgreeOnDefaults | app/build.gradle.kts:235-250 | where the corrected reading succeeds, the as-written one agrees with it exactly when the manifest's levels are the defaults |
| GradleModules.Levels | app/build.gradle.kts:235-250 | the corrected reading succeeds exactly when each declared level parses as an integer, and fails on a missing `uses-sdk` |
| GradleModules.LevelsReadManifest | app/build.gradle.kts:247-249 | levels written into the manifest are read back as written |
| GradleModules.LevelsAgreeWithScript | app/build.gradle.kts:235-250 | with the target level declared, the corrected reading agrees with the Python script's |
| GradleModules.ResolvedKeys | app/build.gradle.kts:262-268 | the known coordinates are the resolved artifacts' `group:name`, one per artifact |
| GradleModules.KeptDeps | app/build.gradle.kts:260-276 | the kept dependencies are exactly the POM dependencies among the resolved coordinates, less `kotlin-stdlib-common`, each once, in first-seen order |
| GradleModules.KeptDepsOrdered | app/build.gradle.kts:260-276 | de-duplication keeps the order of first appearance |
| GradleModules.DepOnVendoredModule | app/build.gradle.kts:283-299 | a dependency on a vendored module refers to the stanza written for that module |
| GradleModules.DepOnPlatformModule | app/build.gradle.kts:283-299 | a dependency the platform provides refers to its platform module |
| GradleModules.ListItemsArePrefixedLines | app/build.gradle.kts:283-299 | the entry lines have the same shape as the Python script's |
| GradleModules.DepModuleNames | app/build.gradle.kts:283-299 | one module name per dependency, in order |
| GradleModules.ListText | app/build.gradle.kts:283-301 | the list is empty exactly when there are no dependencies |
| GradleModules.ListTextIsScriptRendering | app/build.gradle.kts:283-301 | a non-empty list is the Python script's rendering followed by the closing indentation |
| GradleModules.FormatDeps | app/build.gradle.kts:259-302 | the list is empty exactly when no `-nodeps` entry is asked for and no dependency is kept |
| GradleModules.ListItemsHead | app/build.gradle.kts:283-299 | a list opens with a newline and the first entry |
| GradleModules.ListTextHead | app/build.gradle.kts:283-301 | a non-empty list opens with the first dependency's module name |
| GradleModules.NoDepsEntryName | app/build.gradle.kts:278-281 | the `-nodeps` entry names the module's own prebuilt stanza |
| GradleModules.FormatDepsOpensWithPrebuilt | app/build.gradle.kts:278-281 | a list with the `-nodeps` entry opens with it, before any dependency |
| GradleModules.AarModulesArePair | app/build.gradle.kts:309-334 | an AAR's stanzas are, after an empty line, the `-nodeps` `android_library_import` of the archive listing the module names of the kept dependencies, then the `android_library` with the extracted manifest listing the module's own `-nodeps` module and the kept dependencies, both with the given levels and the APEX availability |
| GradleModules.JarModulesArePair | app/build.gradle.kts:337-362 | a JAR's stanzas are, after an empty line, the `-nodeps` `java_import` of the archive, then the `java_library_static` listing the `-nodeps` module and the kept dependencies, both with the given levels and the APEX availability |
| GradleModules.ModuleStanzas | app/build.gradle.kts:304-368 | an artifact renders exactly when it is a JAR or an AAR whose levels read, any other extension throwing; an AAR renders the AAR module pair with the levels read from its manifest, a JAR the JAR module pair with the task's default levels |
| GradleModules.Append | app/build.gradle.kts:253-257 | an empty `libs/Android.bp` is given the header first; a non-empty one is appended to |
| GradleModules.LibsBp | app/build.gradle.kts:253-368 | the file is produced exactly when every stanza renders, and no stanza leaves it as it was |
| GradleModules.LibsBpKeepsFile | app/build.gradle.kts:253-368 | appending never changes what the file already held |
| GradleModules.LibsBpHeaderFirst | app/build.gradle.kts:253-257 | a file built from scratch opens with the header |
| GradleModules.AllStanzas | app/build.gradle.kts:197-368 | one rendering per copied artifact, in order |
| GradleModules.GenerateBp | app/build.gradle.kts:100-371 | the Gradle task succeeds exactly when the root list renders and every copied artifact's stanzas render, and then `Android.bp` holds the replaced list |
| Cycle.Next | app/src/main/java/org/lineageos/aperture/ext/List.kt:19 | an empty list has no next element; otherwise the element after the cursor, the first one after the last or when the cursor is absent |
| Cycle.Previous | app/src/main/java/org/lineageos/aperture/ext/List.kt:32 | an empty list has no previous element; otherwise the element before the cursor, the last one before the first or when the cursor is absent |
| Cycle.NextOrThrow | app/src/main/java/org/lineageos/aperture/ext/Collections.kt:33-36 | the non-null `next` throws exactly on an empty list and otherwise agrees with the nullable one |
| Cycle.PreviousOrThrow | app/src/main/java/org/lineageos/aperture/ext/Collections.kt:43-46 | the non-null `previous` throws exactly on an empty list and otherwise agrees with the nullable one |
| Cycle.NextStep | app/src/main/java/org/lineageos/aperture/ext/Array.kt:19 | on a list without repeats `next` moves the cursor one position on, from the last to the first |
| Cycle.PreviousStep | app/src/main/java/org/lineageos/aperture/ext/Array.kt:32 | on a list without repeats `previous` moves the cursor one position back, from the first to the last |
| Cycle.PreviousOfNext | app/src/main/java/org/lineageos/aperture/ext/List.kt:19-32 | `previous` undoes `next` on a list without repeats |
| Cycle.NextOfPrevious | app/src/main/java/org/lineageos/aperture/ext/List.kt:19-32 | `next` undoes `previous` on a list without repeats |
| Cycle.NextN | app/src/main/java/org/lineageos/aperture/ext/List.kt:19 | repeated stepping never leaves the list |
| Cycle.NextNStep | app/src/main/java/org/lineageos/aperture/ext/List.kt:19 | `k` steps advance the cursor's position by `k` modulo the length |
| Cycle.NextCycle | app/src/main/java/org/lineageos/aperture/ext/List.kt:19 | as many steps as the list is long bring the cursor back to where it started |
| Cycle.EnumNext | app/src/main/java/org/lineageos/aperture/ext/Enum.kt:16 | an enum constant's `next` is the constant one position further in declaration order, the first after the last |
| Cycle.EnumPrevious | app/src/main/java/org/lineageos/aperture/ext/Enum.kt:11 | an enum constant's `previous` is the constant one position back in declaration order, the last before the first |
| Cycle.EnumStepsUndo | app/src/main/java/org/lineageos/aperture/ext/Enum.kt:11-16 | over constants listed once each, `previous` undoes `next` and `next` undoes `previous` |
| Containers.GetOrPut | app/src/main/java/org/lineageos/aperture/ext/MutableMap.kt:8-22 | afterwards the key is present and holds the returned value; a present key changes nothing; an absent one gains the empty value; no other key changes |
| Containers.GetOrPutIdempotent | app/src/main/java/org/lineageos/aperture/ext/MutableMap.kt:8-22 | a second call with the same key returns the same value and changes nothing |
| Containers.GetOrCreateList | app/src/main/java/org/lineageos/aperture/ext/MutableMap.kt:8-12 | an absent key is given, and returns, a fresh empty list; a present one returns its list unchanged |
| Containers.GetOrCreateMap | app/src/main/java/org/lineageos/aperture/ext/MutableMap.kt:13-17 | an absent key is given, and returns, a fresh empty map; a present one returns its map unchanged |
| Containers.GetOrCreateSet | app/src/main/java/org/lineageos/aperture/ext/MutableMap.kt:19-22 | an absent key is given, and returns, a fresh empty set; a present one returns its set unchanged |
| Containers.ListGetOrPut | app/src/main/java/org/lineageos/aperture/ext/MutableList.kt:15-18 | an index out of bounds throws; a present element is returned unchanged; a `null` one is replaced by the default, and no other slot changes |
| Containers.ListGetOrPutIdempotent | app/src/main/java/org/lineageos/aperture/ext/MutableList.kt:15-18 | once a slot is filled, later calls return its value whatever default they pass |
| Containers.ListGetOrCreateList | app/src/main/java/org/lineageos/aperture/ext/MutableList.kt:20-23 | the list variant throws exactly out of bounds and fills a `null` slot with an empty list |
| Containers.ListGetOrCreateMap | app/src/main/java/org/lineageos/aperture/ext/MutableList.kt:25-28 | the map variant throws exactly out of bounds and fills a `null` slot with an empty map |
| Containers.ListGetOrCreateSet | app/src/main/java/org/lineageos/aperture/ext/MutableList.kt:30-33 | the set variant throws exactly out of bounds and fills a `null` slot with an empty set |
| Modes.GridModesComplete | app/src/main/java/org/lineageos/aperture/utils/GridMode.kt:10-14 | the declared grid modes list every mode once |
| Modes.GridNext | app/src/main/java/org/lineageos/aperture/utils/GridMode.kt:19 | the next grid mode always differs from the current one |
| Modes.GridCycle | app/src/main/java/org/lineageos/aperture/utils/GridMode.kt:10-19 | the grid modes step off, thirds, quarters, golden ratio and back to off, so four steps return to the start |
| Modes.FlashModesComplete | app/src/main/java/org/lineageos/aperture/utils/FlashMode.kt:10-35 | the declared flash modes list every mode once |
| Modes.FlashNext | app/src/main/java/org/lineageos/aperture/camera/FlashMode.kt:40 | the next flash mode always differs from the current one |
| Modes.FlashCycle | app/src/main/java/org/lineageos/aperture/camera/FlashMode.kt:10-40 | torch wraps around to off, and four steps return to the start |
| Modes.AllowedModes | app/src/main/java/org/lineageos/aperture/camera/FlashMode.kt:46-59 | photos allow every flash mode; video allows exactly off and torch |
| Modes.FromSeconds | app/src/main/java/org/lineageos/aperture/utils/TimerMode.kt:14 | a mode is found exactly for 0, 3 or 10 seconds, and it has those seconds |
| Modes.FromSecondsRoundTrip | app/src/main/java/org/lineageos/aperture/utils/TimerMode.kt:8-14 | every timer mode is found again from its seconds |
| Modes.OrdinalOrdersValues | app/src/main/java/org/lineageos/aperture/camera/FrameRate.kt:10-14 | the declaration order of the frame rates is the order of their values |
| Modes.FromValue | app/src/main/java/org/lineageos/aperture/camera/FrameRate.kt:30 | a rate is found exactly for 24, 30, 60 or 120, and it has that value |
| Modes.FromValueRoundTrip | app/src/main/java/org/lineageos/aperture/utils/Framerate.kt:10-30 | every frame rate is found again from its value |
| Modes.FromRange | app/src/main/java/org/lineageos/aperture/camera/FrameRate.kt:31-35 | only a single-value range gives a rate, the one with that value |
| Modes.Largest | app/src/main/java/org/lineageos/aperture/camera/FrameRate.kt:23 | the head of the descending sort is a greatest member |
| Modes.Smallest | app/src/main/java/org/lineageos/aperture/camera/FrameRate.kt:24 | the head of the ascending sort is a least member |
| Modes.LowerOrHigher | app/src/main/java/org/lineageos/aperture/camera/FrameRate.kt:22-27 | no rate only for an empty list; otherwise a member of the list, the greatest one not above the current rate when there is one, else the least one above it |
| Modes.LowerOrHigherOfMember | app/src/main/java/org/lineageos/aperture/utils/Framerate.kt:22-27 | a supported current rate is kept |
| Modes.ClosestMode | app/src/main/java/org/lineageos/aperture/utils/StabilizationMode.kt:17-25 | the result is the requested mode, digital or off; anything but off is supported; a supported mode is kept; a fallback is weaker than the request |
| Modes.ClosestModeFallbacks | app/src/main/java/org/lineageos/aperture/utils/StabilizationMode.kt:20-23 | an unsupported hybrid mode falls back to a supported digital one; an unsupported optical one does so only in video mode |
| Modes.VideoMode | app/src/main/java/org/lineageos/aperture/models/VideoStabilizationMode.kt:17-21 | the chosen mode is off or supported, and no supported mode is stronger |
| Orientation.Compensation | app/src/main/java/org/lineageos/aperture/utils/Rotation.kt:24 | the compensation lies between 180 and 450 degrees and completes the offset to one or two full turns |
| Orientation.InRangesOfTwo | app/src/main/java/org/lineageos/aperture/utils/Rotation.kt:26-42 | a two-arc aperture holds a degree exactly when one of its arcs does |
| Orientation.InRangesOfThree | app/src/main/java/org/lineageos/aperture/utils/Rotation.kt:26-42 | a three-arc aperture holds a degree exactly when one of its arcs does |
| Orientation.ApertureArcs | app/src/main/java/org/lineageos/aperture/utils/Rotation.kt:26-42 | each rotation's aperture is the 90-degree arc centred on its offset, the one of 0 degrees wrapping past 360 |
| Orientation.FromDegreesInAperture | app/src/main/java/org/lineageos/aperture/utils/Rotation.kt:48-50 | `first` throws exactly for degrees outside 0 to 359; otherwise the rotation found has the degree in its aperture |
| Orientation.FromDegreesIsNearest | app/src/main/java/org/lineageos/aperture/utils/Rotation.kt:45-50 | a rotation's aperture holds the degree exactly when it is the one found, and its offset is within 45 degrees of it, across the wrap |
| Orientation.JavaRem | app/src/main/java/org/lineageos/aperture/ui/LevelerView.kt:129 | Java's `%` agrees with the mathematical remainder on non-negative operands and keeps the dividend's sign on negative ones |
| Orientation.IsLevelReadings | app/src/main/java/org/lineageos/aperture/ui/LevelerView.kt:128-131 | a reading is level exactly within one degree of a multiple of 90, and every negative reading counts as level |
| Orientation.LandscapeIsSideways | app/src/main/java/org/lineageos/aperture/ui/LevelerView.kt:133-135 | a reading counts as landscape exactly when it falls in the aperture of 90 or 270 degrees |
| Orientation.OnOrientationChanged | app/src/main/java/org/lineageos/aperture/ui/LevelerView.kt:28-34 | a known reading replaces the current orientation; an unknown one is ignored |
| Orientation.AfterReadingsIsLastKnown | app/src/main/java/org/lineageos/aperture/ui/LevelerView.kt:28-34 | after a stream of readings the orientation is unknown exactly when every reading was, and otherwise is the last known reading |
| Orientation.Draw | app/src/main/java/org/lineageos/aperture/ui/LevelerView.kt:70-82 | nothing is drawn while the orientation is unknown; the tilted line is drawn exactly when the base is not highlighted; the base lies sideways exactly for landscape rotations |
| TimeFormat.JavaDiv | app/src/main/java/org/lineageos/aperture/utils/TimeUtils.kt:16-18 | Java's integer division truncates toward zero: the remainder has the dividend's sign and is smaller than the divisor |
| TimeFormat.JavaDivMod | app/src/main/java/org/lineageos/aperture/utils/TimeUtils.kt:16-18 | quotient times divisor plus remainder gives back the dividend, with the remainder taking the dividend's sign |
| TimeFormat.Pad2 | app/src/main/java/org/lineageos/aperture/utils/TimeUtils.kt:15 | `%02d` of 0 to 99 is two digits reading back as the number; a negative number keeps its sign; every rendering parses back |
| TimeFormat.FieldsRecombine | app/src/main/java/org/lineageos/aperture/utils/TimeUtils.kt:13-19 | hours, minutes and seconds recombine to the input; minutes and seconds lie below 60 and share the input's sign |
| TimeFormat.JavaDivNested | app/src/main/java/org/lineageos/aperture/utils/TimeUtils.kt:16-17 | converting seconds to minutes and then to hours loses nothing against converting to hours at once |
| TimeFormat.FormatDuration | app/src/main/java/org/lineageos/aperture/utils/TimeUtils.kt:13-19 | under 100 hours the text is `hh:mm:ss`, eight characters with colons at positions 2 and 5 |
| TimeFormat.FormatDurationReadsBack | app/src/main/java/org/lineageos/aperture/utils/TimeUtils.kt:13-19 | under 100 hours the three fields read back from the text and recombine to the input |
| Query.ColumnEq | app/src/main/java/org/lineageos/aperture/query/Query.kt:39 | a column compared with a value renders as `column = value` |
| Query.BuildBalanced | app/src/main/java/org/lineageos/aperture/query/Query.kt:11-18 | with parenthesis-free literals, the rendering of any expression has balanced parentheses, so no operand closes its enclosing group |
| Query.EqBalanced | app/src/main/java/org/lineageos/aperture/query/Query.kt:12 | an equality of balanced operands stays balanced |
| Query.BinaryBalanced | app/src/main/java/org/lineageos/aperture/query/Query.kt:13-14 | `OR` and `AND` wrap each balanced operand in its own group and stay balanced |
| Query.InBalanced | app/src/main/java/org/lineageos/aperture/query/Query.kt:16 | an `IN` list of plain members renders as one balanced group |
| Query.NotBalanced | app/src/main/java/org/lineageos/aperture/query/Query.kt:17 | a negation wraps its balanced operand in one group |
| Query.JoinQueries | app/src/main/java/org/lineageos/aperture/query/Query.kt:43-45 | joining no queries gives nothing and joining one gives it back |
| Query.JoinAndKeepsConjuncts | app/src/main/java/org/lineageos/aperture/query/Query.kt:37-45 | joining with `and` keeps every query's conjuncts, in order, none lost or added |
| Wifi.SplitFields | app/src/main/java/org/lineageos/aperture/utils/WifiNetwork.kt:59-60 | splitting at unescaped semicolons always yields at least one piece |
| Wifi.SplitFieldsAppend | app/src/main/java/org/lineageos/aperture/utils/WifiNetwork.kt:59-60 | text whose semicolons are all escaped stays inside the first piece of whatever follows it |
| Wifi.SplitField | app/src/main/java/org/lineageos/aperture/utils/WifiNetwork.kt:59-60 | a `key:value;` field with an escaped value comes out of the split as exactly one piece |
| Wifi.Unescape | app/src/main/java/org/lineageos/aperture/utils/WifiNetwork.kt:68-70 | the parsed name and password never hold a backslash |
| Wifi.EscapeUnbroken | app/src/main/java/org/lineageos/aperture/utils/WifiNetwork.kt:59 | an escaped value has every semicolon preceded by a backslash, so the split cannot cut it |
| Wifi.UnescapeEscape | app/src/main/java/org/lineageos/aperture/utils/WifiNetwork.kt:68-70 | removing backslashes undoes escaping for a value without backslashes |
| Wifi.FieldPair | app/src/main/java/org/lineageos/aperture/utils/WifiNetwork.kt:61-65 | a piece without a colon is dropped; otherwise it splits at its first colon into a colon-free key and the rest |
| Wifi.FieldPairOfKey | app/src/main/java/org/lineageos/aperture/utils/WifiNetwork.kt:62-63 | a one-character key and its value are read back from `k:value` |
| Wifi.ToMapAbsent | app/src/main/java/org/lineageos/aperture/utils/WifiNetwork.kt:60-66 | a key no piece carries is absent from the map |
| Wifi.EncryptionOf | app/src/main/java/org/lineageos/aperture/utils/WifiNetwork.kt:71-76 | `WEP`, `WPA` and `SAE` select their types exactly, anything else, a missing type included, means no encryption |
| Wifi.FromQr | app/src/main/java/org/lineageos/aperture/utils/WifiNetwork.kt:52-79 | a network is only read from text starting with `WIFI:` in any case, and its name never holds a backslash |
| Wifi.FromData | app/src/main/java/org/lineageos/aperture/utils/WifiNetwork.kt:68-78 | no network exactly when the map has no name; otherwise the name with its backslashes removed |
| Wifi.FromQrNeedsName | app/src/main/java/org/lineageos/aperture/utils/WifiNetwork.kt:68 | text without a name field gives no network |
| Wifi.Pieces | app/src/main/java/org/lineageos/aperture/utils/WifiNetwork.kt:60 | one piece per field |
| Wifi.KeyedEscaped | app/src/main/java/org/lineageos/aperture/utils/WifiNetwork.kt:59-63 | a plain one-character key, a colon and an escaped value hold no separator and do not end in a backslash |
| Wifi.FieldsSplit | app/src/main/java/org/lineageos/aperture/utils/WifiNetwork.kt:59-60 | encoded fields split back into exactly their pieces, plus the two empty pieces of the closing `;;` |
| Wifi.PlainTail | app/src/main/java/org/lineageos/aperture/utils/WifiNetwork.kt:59-60 | the fields after the first are as plain as the whole |
| Wifi.PiecesCons | app/src/main/java/org/lineageos/aperture/utils/WifiNetwork.kt:60 | the first field's piece heads the pieces |
| Wifi.ToMapPieces | app/src/main/java/org/lineageos/aperture/utils/WifiNetwork.kt:60-66 | the map read from the pieces of encoded fields is the fields' own map |
| Wifi.ToMapDropsEmpty | app/src/main/java/org/lineageos/aperture/utils/WifiNetwork.kt:61-65 | the empty pieces the closing `;;` leaves add nothing to the map |
| Wifi.MapOfLookup | app/src/main/java/org/lineageos/aperture/utils/WifiNetwork.kt:66-71 | with distinct keys each key maps to its own escaped value and only those keys are present |
| Wifi.ParsedMap | app/src/main/java/org/lineageos/aperture/utils/WifiNetwork.kt:53-66 | an encoded network passes the prefix test and parses to the map of its fields |
| Wifi.NetworkLookups | app/src/main/java/org/lineageos/aperture/utils/WifiNetwork.kt:68-71 | the parser finds the escaped name, the type, the hidden flag, and the escaped password exactly when there is one |
| Wifi.QrPrefix | app/src/main/java/org/lineageos/aperture/utils/WifiNetwork.kt:53-60 | the QR text of a network passes the prefix test and continues with its fields and the closing `;` |
| Wifi.MapOfNetwork | app/src/main/java/org/lineageos/aperture/utils/WifiNetwork.kt:60-66 | the map of an encoded network holds its name, type and hidden flag, and its password exactly when there is one, all escaped |
| Wifi.FromDataOf | app/src/main/java/org/lineageos/aperture/utils/WifiNetwork.kt:68-78 | the map of an encoded network describes the network again, for names and passwords without backslashes |
| Wifi.FromQrToQr | app/src/main/java/org/lineageos/aperture/utils/WifiNetwork.kt:52-79 | parsing the QR text of a network gives the network back, for names and passwords without backslashes |
| Wifi.ToSuggestion | app/src/main/java/org/lineageos/aperture/utils/WifiNetwork.kt:27-49 | WEP gives no suggestion; a password on an open network throws, and so does a WPA or SAE password that is not ASCII, as the platform's passphrase setters do; otherwise the suggestion keeps name and hidden flag, has a passphrase exactly when the network has a password, the password itself, as WPA2 for WPA and WPA3 for SAE |
| Wifi.NewNetwork | app/src/main/java/org/lineageos/aperture/qr/WifiNetwork.kt:28-32 | with assertions on, construction fails exactly when an open network has a password or a secured one lacks it |
| Wifi.FromParsed | app/src/main/java/org/lineageos/aperture/qr/WifiNetwork.kt:62-77 | no network when the parser finds none; a network keeps the parsed name and the mapped type; with assertions on it is well formed, with them off every parse gives one |
| Wifi.WellFormedSuggests | app/src/main/java/org/lineageos/aperture/qr/WifiNetwork.kt:28-59 | a network that passed the constructor check makes the suggestion builder throw exactly when its password is not ASCII, and gives no suggestion exactly for WEP |
| Codec.Decode | app/src/main/java/org/lineageos/aperture/ext/SharedPreferences.kt:51-69 | a stored text no entry matches reads as the default; otherwise as the value of the first entry with that text |
| Codec.Encode | app/src/main/java/org/lineageos/aperture/ext/SharedPreferences.kt:51-69 | a value no entry holds is written as the fallback; otherwise as the text of the first entry holding it |
| Codec.DecodeEncode | app/src/main/java/org/lineageos/aperture/ext/SharedPreferences.kt:51-69 | with distinct texts, any value the table holds reads back as itself, whatever the default and fallback |
| Codec.EncodeIsText | app/src/main/java/org/lineageos/aperture/ext/SharedPreferences.kt:61-68 | a held value is written as one of the table's texts |
| Codec.DecodeAt | app/src/main/java/org/lineageos/aperture/ext/SharedPreferences.kt:52-59 | with distinct texts, each entry's text reads as its own value |
| Codec.EncodeUnheld | app/src/main/java/org/lineageos/aperture/ext/SharedPreferences.kt:61-68 | a value without an entry is written as the fallback and reads back as whatever the fallback reads as |
| Prefs.GetNullableBoolean | app/src/main/java/org/lineageos/aperture/ext/SharedPreferences.kt:31-37 | the nullable getter gives nothing exactly when the key is absent, and otherwise the stored flag |
| Prefs.PutNullableBoolean | app/src/main/java/org/lineageos/aperture/ext/SharedPreferences.kt:39-45 | writing nothing removes the key; no other key changes |
| Prefs.NullableBooleanRoundTrip | app/src/main/java/org/lineageos/aperture/ext/SharedPreferences.kt:31-45 | a nullable flag reads back as written, absence included, as `saveLocation` relies on |
| Prefs.Read | app/src/main/java/org/lineageos/aperture/ext/SharedPreferences.kt:52-59 | a stored text the table does not know reads as the setting's `else` value |
| Prefs.Write | app/src/main/java/org/lineageos/aperture/ext/SharedPreferences.kt:60-68 | a value the table holds is stored as one of its texts; any other value as the setter's `else` text |
| Prefs.ReadWrite | app/src/main/java/org/lineageos/aperture/ext/SharedPreferences.kt:51-69 | with distinct texts a held value reads back as written; any other value reads back as the `else` text decodes |
| Prefs.WriteKeepsOthers | app/src/main/java/org/lineageos/aperture/ext/SharedPreferences.kt:51-69 | writing one setting never changes what a setting under another key reads |
| Prefs.ReadMissing | app/src/main/java/org/lineageos/aperture/ext/SharedPreferences.kt:52 | a missing key reads as the setting's default text decodes |
| Prefs.Facts | app/src/main/java/org/lineageos/aperture/ext/SharedPreferences.kt:51-69 | read-after-write, unknown-text and missing-key behaviour of every text-coded setting with distinct texts |
| Prefs.LastCameraFacingRoundTrip | app/src/main/java/org/lineageos/aperture/ext/SharedPreferences.kt:51-69 | every facing reads back as written; unknown or missing text reads as back |
| Prefs.LastCameraModeRoundTrip | app/src/main/java/org/lineageos/aperture/ext/SharedPreferences.kt:74-90 | every mode reads back as written; unknown or missing text reads as photo |
| Prefs.LastGridModeRoundTrip | app/src/main/java/org/lineageos/aperture/ext/SharedPreferences.kt:95-113 | every grid mode reads back as written; unknown or missing text reads as off |
| Prefs.PhotoCaptureMode | app/src/main/java/org/lineageos/aperture/ext/SharedPreferences.kt:130-142 | zero shutter lag exactly when the stored or default text is `minimize_latency` and `enable_zsl` is on; maximize quality exactly for its own text; minimize latency otherwise |
| Prefs.PhotoFlashModeRoundTrip | app/src/main/java/org/lineageos/aperture/ext/SharedPreferences.kt:156-174 | all four photo flash modes read back as written; unknown or missing text reads as auto |
| Prefs.VideoFlashModeRoundTrip | app/src/main/java/org/lineageos/aperture/ext/SharedPreferences.kt:179-195 | off and torch read back as written; auto and on are stored as `off` and read back as off |
| Prefs.PhotoEffectRoundTrip | app/src/main/java/org/lineageos/aperture/ext/SharedPreferences.kt:200-224 | the six extension modes read back as written |
| Prefs.PhotoEffectDefaults | app/src/main/java/org/lineageos/aperture/ext/SharedPreferences.kt:200-224 | any other integer is stored as `none`; unknown or missing text reads as none |
| Prefs.VideoFrameRate | app/src/main/java/org/lineageos/aperture/ext/SharedPreferences.kt:229-233 | a rate is read only for a stored value that names one, and never for a missing key |
| Prefs.VideoFrameRateRoundTrip | app/src/main/java/org/lineageos/aperture/ext/SharedPreferences.kt:229-233 | a frame rate, or its absence stored as -1, reads back as written |
| Prefs.VideoQualityRoundTrip | app/src/main/java/org/lineageos/aperture/ext/SharedPreferences.kt:238-258 | SD, HD, FHD and UHD read back as written |
| Prefs.VideoQualityDefaults | app/src/main/java/org/lineageos/aperture/ext/SharedPreferences.kt:238-258 | any other quality is stored as `fhd`; unknown or missing text reads as FHD |
| Prefs.TimerSetting | app/src/main/java/org/lineageos/aperture/ext/SharedPreferences.kt:264-268 | seconds no timer mode has read as off; any other mode has the stored seconds |
| Prefs.TimerSettingRoundTrip | app/src/main/java/org/lineageos/aperture/ext/SharedPreferences.kt:264-268 | every timer mode reads back as written; a missing key or unknown seconds read as off |
| Prefs.AspectRatioRoundTrip | app/src/main/java/org/lineageos/aperture/ext/SharedPreferences.kt:274-289 | 4:3 and 16:9 read back as written; any other integer is stored as `4_3`; unknown or missing text reads as 4:3 |
| Prefs.LastSavedUri | app/src/main/java/org/lineageos/aperture/ext/SharedPreferences.kt:332-336 | no URI exactly when the key is absent |
| Prefs.LastSavedUriRoundTrip | app/src/main/java/org/lineageos/aperture/ext/SharedPreferences.kt:332-339 | a URI reads back as written, but clearing it stores the text `null`, which then reads back as a URI |
| Prefs.VolumeButtonsDefault | app/src/main/java/org/lineageos/aperture/ext/SharedPreferences.kt:350-358 | the volume buttons act as shutter unless another known action is stored |
| Prefs.ProcessingSettings | app/src/main/java/org/lineageos/aperture/ext/SharedPreferences.kt:363-439 | the processing-mode settings read `default`, missing and unknown text as no mode and each named mode as itself; only noise reduction knows `minimal` |
| Prefs.VideoDynamicRangeRoundTrip | app/src/main/java/org/lineageos/aperture/ext/SharedPreferences.kt:453-475 | all six dynamic ranges read back as written; unknown or missing text reads as SDR |
| Prefs.FlagsRoundTrip | app/src/main/java/org/lineageos/aperture/ext/SharedPreferences.kt:118-451 | each boolean setting reads back as written, reads its own default while missing, and no two share a key |
| Prefs.FrontBackFacingRoundTrip | app/src/main/java/org/lineageos/aperture/utils/SharedPreferencesUtils.kt:14-31 | the older facing setting keeps front and back; anything else reads as back |
| Prefs.PhotoVideoModeRoundTrip | app/src/main/java/org/lineageos/aperture/SharedPreferencesExt.kt:46-66 | the older mode setting keeps photo and video; anything else reads as photo |
| Prefs.OffOn3GridRoundTrip | app/src/main/java/org/lineageos/aperture/SharedPreferencesExt.kt:71-91 | the older grid setting keeps off and 3x3; anything else reads as off |
| Prefs.CaptureModeReads | app/src/main/java/org/lineageos/aperture/SharedPreferencesExt.kt:98-108 | each of the three capture texts reads as its mode; a missing key or other text reads as maximize quality |
| Prefs.PhotoFlashIntRoundTrip | app/src/main/java/org/lineageos/aperture/SharedPreferencesExt.kt:113-137 | the auto, on and off flash constants read back as written; any other integer is stored as `auto`; unknown or missing text reads as auto |
| Prefs.SelfieCaptureModeRoundTrip | app/src/main/java/org/lineageos/selfie/SharedPreferencesExt.kt:118-142 | the selfie capture mode keeps all three modes; any other integer, unknown text and a missing key give minimize latency |
| Prefs.HighestQualityReads | app/src/main/java/org/lineageos/selfie/SharedPreferencesExt.kt:208-222 | the five texts read as their qualities; `sd`, any other text and a missing key read as highest |
| Prefs.HighestQualityRoundTrip | app/src/main/java/org/lineageos/selfie/SharedPreferencesExt.kt:208-234 | the selfie quality setter keeps every quality but SD, which is stored and read back as highest |
| Prefs.SelfieTimerRoundTrip | app/src/main/java/org/lineageos/selfie/SharedPreferencesExt.kt:240-248 | the selfie timer keeps any integer, unchecked, and reads 0 when missing |
| Controls.GetFlashMode | app/src/main/java/org/lineageos/aperture/ext/CameraController.kt:15-24 | a lit torch reads as torch whatever the capture flash says; otherwise an unknown capture flash mode throws and a known one never reads as torch |
| Controls.SetFlashMode | app/src/main/java/org/lineageos/aperture/ext/CameraController.kt:25-35 | the torch is enabled exactly for torch, which writes the capture flash as off |
| Controls.FlashModeGetAfterSet | app/src/main/java/org/lineageos/aperture/ext/CameraController.kt:14-35 | reading the flash mode after setting it gives the mode that was set, whatever the controller held |
| Controls.FlashModeSetAfterGet | app/src/main/java/org/lineageos/aperture/ext/CameraController.kt:14-35 | with the torch off, writing back the mode that was read leaves the capture flash as it was |
| Controls.SetFramerate | app/src/main/java/org/lineageos/aperture/CaptureRequestOptionsBuilderExt.kt:16-24 | no rate clears the option; a rate sets a single-value range |
| Controls.SetFramerateReadsBack | app/src/main/java/org/lineageos/aperture/CaptureRequestOptionsBuilderExt.kt:16-24 | the range set for a rate is read back as that rate |
| Controls.VideoStabilizationFor | app/src/main/java/org/lineageos/aperture/CaptureRequestOptionsBuilderExt.kt:28-40 | video stabilization is on exactly for digital and hybrid, as preview stabilization only for hybrid from Android 13 on |
| Controls.OisFor | app/src/main/java/org/lineageos/aperture/CaptureRequestOptionsBuilderExt.kt:42-49 | optical stabilization is on exactly for the optical mode |
| Controls.StabilizationExclusive | app/src/main/java/org/lineageos/aperture/CaptureRequestOptionsBuilderExt.kt:27-50 | a request never turns on optical and video stabilization together, and turns one on exactly when the mode is not off |
| Controls.ClosestModeRequest | app/src/main/java/org/lineageos/aperture/CaptureRequestOptionsBuilderExt.kt:27-50 | the mode chosen by `getClosestMode` only turns on a stabilization the camera supports |
| Exif.OrientationToTransform | app/src/main/java/org/lineageos/aperture/utils/ExifUtils.kt:29-51 | codes outside the map give the default; the transform mirrors exactly for the four mirrored codes and is the default exactly for undefined, normal and unknown codes |
| Exif.TransformMatchesStandard | app/src/main/java/org/lineageos/aperture/utils/ExifUtils.kt:29-39 | for codes 1 to 8 the transform puts the picture's first row and column where section 4.6.4 of the Exif standard says they are |
| Exif.TransformBySides | app/src/main/java/org/lineageos/aperture/utils/ExifUtils.kt:13 | a transform is determined by where it sends the top and the left side |
| Exif.TransformCode | app/src/main/java/org/lineageos/aperture/utils/ExifUtils.kt:29-39 | every transform has a code from 1 to 8 |
| Exif.TransformCodeRoundTrip | app/src/main/java/org/lineageos/aperture/utils/ExifUtils.kt:29-51 | the map is a bijection between codes 1 to 8 and the eight transforms |
| CameraTypes.ValuesComplete | app/src/main/java/org/lineageos/aperture/utils/CameraType.kt:19-66 | the declared values list every camera type |
| CameraTypes.Ignore | app/src/main/java/org/lineageos/aperture/utils/CameraType.kt:70 | bokeh, time-of-flight and unknown modules are ignored and every other one has a positive zoom |
| CameraTypes.FromOverlayName | app/src/main/java/org/lineageos/aperture/utils/CameraType.kt:80-84 | an overlay name no type has gives unknown; any other result has that overlay name |
| CameraTypes.OverlayNamesDistinct | app/src/main/java/org/lineageos/aperture/utils/CameraType.kt:30-66 | no two types share an overlay name |
| CameraTypes.FromOverlayNameRoundTrip | app/src/main/java/org/lineageos/aperture/utils/CameraType.kt:30-84 | every type is found again from its overlay name |
| Assistant.FirstPresent | app/src/main/java/org/lineageos/aperture/models/AssistantIntent.kt:34-36 | nothing exactly when no key is present; otherwise the first present key in list order |
| Assistant.BoolField | app/src/main/java/org/lineageos/aperture/models/AssistantIntent.kt:34-39 | a flag is read from the platform key when present, else from the assistant key, else absent |
| Assistant.IntField | app/src/main/java/org/lineageos/aperture/models/AssistantIntent.kt:40-42 | the timer is read from the platform key when present, else from the assistant key, else absent |
| Assistant.FromIntent | app/src/main/java/org/lineageos/aperture/models/AssistantIntent.kt:31-49 | no request without extras or without any known key; otherwise each field from its first present key |
| Assistant.ToExtras | app/src/main/java/org/lineageos/aperture/models/AssistantIntent.kt:16-29 | each of the three fields is sent under its platform key exactly when set, with its value |
| Assistant.FromIntentToExtras | app/src/main/java/org/lineageos/aperture/models/AssistantIntent.kt:31-49 | a request with a field set reads back as itself from the extras that carry it; an empty one reads as no request |
| Assistant.PlatformKeyWins | app/src/main/java/org/lineageos/aperture/models/AssistantIntent.kt:16-19 | when both spellings of a key are present the platform one wins |
| Assistant.UnrelatedExtras | app/src/main/java/org/lineageos/aperture/models/AssistantIntent.kt:44-46 | extras with only unrelated keys give no request |
| CountDown.SecondsChanged | app/src/main/java/org/lineageos/aperture/ui/CountDownView.kt:58-71 | reaching zero hides the view and calls the listener once without queueing a tick; any other value queues exactly one more tick and calls no one |
| CountDown.Cancel | app/src/main/java/org/lineageos/aperture/ui/CountDownView.kt:110-118 | reports true exactly when a countdown was running, then leaves it stopped, hidden and with no tick queued; otherwise nothing changes; the one-tick-while-running invariant is kept |
| CountDown.Start | app/src/main/java/org/lineageos/aperture/ui/CountDownView.kt:98-105 | the countdown restarts from the given seconds for the new listener, which is called at once exactly when the seconds are zero; the invariant is kept |
| CountDown.Tick | app/src/main/java/org/lineageos/aperture/ui/CountDownView.kt:35-42 | with no tick queued nothing happens; otherwise one second less, calling the listener exactly when the last second ends; the invariant is kept |
| CountDown.TicksBeforeEnd | app/src/main/java/org/lineageos/aperture/ui/CountDownView.kt:35-71 | fewer ticks than the seconds left lower the count by that many, keep the listener and call no one |
| CountDown.TicksToEnd | app/src/main/java/org/lineageos/aperture/ui/CountDownView.kt:35-71 | a countdown from n calls its listener exactly once over n or more ticks and ends at zero |
| CountDown.IdleTicks | app/src/main/java/org/lineageos/aperture/ui/CountDownView.kt:35-48 | with no countdown running, ticks change nothing and call no one |
| CountDown.CancelledNeverFires | app/src/main/java/org/lineageos/aperture/ui/CountDownView.kt:110-118 | after a cancel no number of ticks calls the listener |
| CountDown.StartThenRun | app/src/main/java/org/lineageos/aperture/ui/CountDownView.kt:98-105 | starting and then letting the ticks run calls the new listener exactly once and no earlier listener, whatever was running before |
| Overlay.ToInt | app/src/main/java/org/lineageos/aperture/camera/CameraManager.kt:46 | a token converts exactly when it is a decimal number within the 32-bit range, and then to that number |
| Overlay.AbsoluteValue | app/src/main/java/org/lineageos/aperture/camera/CameraManager.kt:46 | the magnitude of any 32-bit value except the smallest, which keeps its sign |
| Overlay.RateOf | app/src/main/java/org/lineageos/aperture/camera/FrameRate.kt:10-31 | a token names a frame rate only when it converts and that rate's value is the token's magnitude |
| Overlay.PutRate | app/src/main/java/org/lineageos/aperture/camera/CameraManager.kt:45-49 | a token naming no frame rate leaves the map alone; one naming a rate sets it, marked exactly when the token starts with a minus sign |
| Overlay.FrameRatesOf | app/src/main/java/org/lineageos/aperture/camera/CameraManager.kt:45-49 | the rate list parses exactly when every token converts to an integer |
| Overlay.FrameRatesHas | app/src/main/java/org/lineageos/aperture/camera/CameraManager.kt:45-49 | every rate some token names is in the parsed map |
| Overlay.FrameRatesFrom | app/src/main/java/org/lineageos/aperture/camera/CameraManager.kt:45-49 | every rate in the parsed map is named by some token |
| Overlay.FrameRatesLast | app/src/main/java/org/lineageos/aperture/camera/CameraManager.kt:45-49 | a rate named more than once keeps the mark of its last token |
| Overlay.QualityOf | app/src/main/java/org/lineageos/aperture/camera/CameraManager.kt:51-58 | only sd, hd, fhd and uhd name a quality |
| Overlay.MentionsAt | app/src/main/java/org/lineageos/aperture/camera/CameraManager.kt:51-58 | a field mentions a quality exactly when one of its tokens names it |
| Overlay.AnyKnownQualities | app/src/main/java/org/lineageos/aperture/camera/CameraManager.kt:51-59 | a field names some quality exactly when its de-duplicated qualities are not empty |
| Overlay.KnownQualities | app/src/main/java/org/lineageos/aperture/camera/CameraManager.kt:51-58 | exactly the qualities some token names |
| Overlay.QualitiesOf | app/src/main/java/org/lineageos/aperture/camera/CameraManager.kt:51-59 | exactly the qualities some token names, each once |
| Overlay.AddQualities | app/src/main/java/org/lineageos/aperture/camera/CameraManager.kt:59-65 | no qualities change nothing; otherwise the camera gets an entry and every other camera keeps its own |
| Overlay.AddQualitiesRates | app/src/main/java/org/lineageos/aperture/camera/CameraManager.kt:59-65 | each named quality of the camera gains the triple's rates over what it had; every other camera and quality keeps its rates |
| Overlay.Triples | app/src/main/java/org/lineageos/aperture/camera/CameraManager.kt:43-44 | an array whose length is a multiple of three falls into a third as many triples, in order |
| Overlay.TriplesAppend | app/src/main/java/org/lineageos/aperture/camera/CameraManager.kt:43-44 | three more strings add one triple at the end |
| Overlay.AddTriples | app/src/main/java/org/lineageos/aperture/camera/CameraManager.kt:43-66 | the triples load exactly when every rate token of every triple converts |
| Overlay.NamedCamerasExist | app/src/main/java/org/lineageos/aperture/camera/CameraManager.kt:43-65 | a camera is named exactly when some triple names it with a known quality |
| Overlay.AddTriplesKeys | app/src/main/java/org/lineageos/aperture/camera/CameraManager.kt:43-66 | the loaded configuration has exactly the named cameras as keys |
| Overlay.AddTriplesCameras | app/src/main/java/org/lineageos/aperture/camera/CameraManager.kt:43-66 | a camera has an entry exactly when some triple names it with a known quality |
| Overlay.AdditionalVideoConfigurations | app/src/main/java/org/lineageos/aperture/camera/CameraManager.kt:34-73 | an array whose length is not a multiple of three is ignored; otherwise it loads exactly when every rate token converts |
| Overlay.ConfiguredCameras | app/src/main/java/org/lineageos/aperture/camera/CameraManager.kt:34-73 | the cameras configured are exactly those some triple names with a known quality |
| Overlay.LaterTripleMerges | app/src/main/java/org/lineageos/aperture/camera/CameraManager.kt:43-66 | a later triple adds its rates to the qualities it names for its camera, overriding earlier marks, and leaves everything else as it was |
| Overlay.AdditionalVideoFrameRates | app/src/main/java/org/lineageos/aperture/camera/CameraManager.kt:153-154 | a camera or quality with no entry has no extra rates; otherwise its configured rates |
| Overlay.SingleTriple | app/src/main/java/org/lineageos/aperture/camera/CameraManager.kt:34-154 | one triple gives its camera exactly its parsed rates for each quality it names and none for others |
| Overlay.AddRatios | app/src/main/java/org/lineageos/aperture/camera/CameraManager.kt:91-99 | the zoom triples load exactly when both ratios of every triple parse |
| Overlay.AddRatiosKeys | app/src/main/java/org/lineageos/aperture/camera/CameraManager.kt:91-99 | a camera has a ratio key exactly when some triple gives it |
| Overlay.AddRatiosLast | app/src/main/java/org/lineageos/aperture/camera/CameraManager.kt:91-99 | a key given more than once keeps the exact ratio of its last triple |
| Overlay.LogicalZoomRatios | app/src/main/java/org/lineageos/aperture/camera/CameraManager.kt:83-104 | an array whose length is not a multiple of three is ignored; otherwise it loads exactly when every ratio parses |
| Overlay.CameraZoomRatios | app/src/main/java/org/lineageos/aperture/camera/CameraManager.kt:156-160 | 1.0 is always a key and maps to itself unless configured; the other keys and values are the camera's configured ones |
| Cameras.AllCameras | app/src/main/java/org/lineageos/aperture/camera/CameraManager.kt:109-112 | the provider's cameras, each kept, in id order |
| Cameras.InternalCameras | app/src/main/java/org/lineageos/aperture/camera/CameraManager.kt:115-117 | exactly the provided cameras of internal type whose ids the overlay does not ignore, in id order |
| Cameras.FacingCameras | app/src/main/java/org/lineageos/aperture/camera/CameraManager.kt:246-248 | exactly the internal cameras of the requested facing, in id order |
| Cameras.DeviceCameras | app/src/main/java/org/lineageos/aperture/camera/CameraManager.kt:245-267 | only internal cameras of the requested facing, led by the first of them; without auxiliary cameras at most that one; with them exactly that one and those after it that the logical-camera setting keeps |
| Cameras.DeviceCamerasShape | app/src/main/java/org/lineageos/aperture/camera/CameraManager.kt:245-267 | the list is empty exactly when no internal camera has that facing; otherwise the first such camera leads it; without auxiliary cameras it holds only that one; with logical auxiliaries ignored none after the first is logical |
| Cameras.MainCamera | app/src/main/java/org/lineageos/aperture/camera/CameraManager.kt:119-126 | no main camera exactly when the facing's list is empty; otherwise an internal camera of that facing |
| Cameras.ExternalCameras | app/src/main/java/org/lineageos/aperture/camera/CameraManager.kt:131-134 | exactly the provided cameras facing outward, all hot-plugged, in id order |
| Cameras.AvailableCameras | app/src/main/java/org/lineageos/aperture/camera/CameraManager.kt:140-149 | as many cameras as there are main back and front cameras plus external ones |
| Cameras.AvailableOrder | app/src/main/java/org/lineageos/aperture/camera/CameraManager.kt:138-149 | the main back camera first, the main front camera next, then every external camera in order; no internal camera comes after the externals start |
| Cameras.ForMode | app/src/main/java/org/lineageos/aperture/camera/CameraManager.kt:150-151 | outside video mode the list is unchanged; in video mode exactly its cameras that record video |
| Cameras.GetCameras | app/src/main/java/org/lineageos/aperture/camera/CameraManager.kt:162-180 | an error exactly for an unknown facing; otherwise cameras of the requested facing, all recording video in video mode; for the external facing exactly the provided external cameras that suit the mode |
| Cameras.Preferred | app/src/main/java/org/lineageos/aperture/camera/CameraManager.kt:191-196 | an error exactly for an unknown facing; a camera found is one of the available cameras |
| Cameras.CameraOfFacingOrFirstAvailable | app/src/main/java/org/lineageos/aperture/camera/CameraManager.kt:188-207 | an error exactly for an unknown facing; the preferred camera when it suits the mode; when there is none or it does not suit the mode, the first available camera that suits the mode, and none exactly when no available camera does |
| Cameras.NextCamera | app/src/main/java/org/lineageos/aperture/camera/CameraManager.kt:215-237 | an error exactly for an unknown facing; none exactly when no camera suits the mode; otherwise one of the cameras that do |
| Cameras.Current | app/src/main/java/org/lineageos/aperture/camera/CameraManager.kt:223-229 | the flip starts from the facing's main camera or the hot-plugged camera itself, and throws exactly for an unknown facing |
| Cameras.NextIn | app/src/main/java/org/lineageos/aperture/camera/CameraManager.kt:230-236 | no camera exactly for an empty list; otherwise one of its cameras |
| Cameras.NextCameraIs | app/src/main/java/org/lineageos/aperture/camera/CameraManager.kt:215-237 | with a camera to start from, the flip is the step within the mode's list |
| Cameras.NextInById | app/src/main/java/org/lineageos/aperture/camera/CameraManager.kt:223-236 | the step within a list is the cyclic `next` on its ids |
| Cameras.NextInMissing | app/src/main/java/org/lineageos/aperture/camera/CameraManager.kt:221-233 | a camera whose id the list lacks steps to the first camera |
| Cameras.NextCameraCycles | app/src/main/java/org/lineageos/aperture/camera/CameraManager.kt:215-237 | the flip moves from the facing's main camera, or from the external camera itself, to the next camera of the list, wrapping around to the first |
| Cameras.NextOfMissingCamera | app/src/main/java/org/lineageos/aperture/camera/CameraManager.kt:221-233 | an external camera no longer in the list flips to the first camera of the list |
| Cameras.LegacyMain | app/src/main/java/org/lineageos/aperture/utils/CameraManager.kt:35-43 | none exactly when no camera has the facing; otherwise the first camera that has it |
| Cameras.LegacyAvailable | app/src/main/java/org/lineageos/aperture/utils/CameraManager.kt:52-61 | exactly the main back camera, the main front camera and the external cameras, all provided |
| Cameras.LegacyAvailableOrder | app/src/main/java/org/lineageos/aperture/utils/CameraManager.kt:52-61 | the main back camera first, the main front camera next, then every external camera in the provider's order; no internal camera comes after the externals start |
| Cameras.LegacyCameraOfFacing | app/src/main/java/org/lineageos/aperture/utils/CameraManager.kt:63-70 | an error for an unknown facing or when no camera is available; the facing's main camera when there is one; otherwise the first available camera |
| Cameras.LegacyNextCamera | app/src/main/java/org/lineageos/aperture/utils/CameraManager.kt:72-89 | an error for an unknown facing or when no camera is available; otherwise one of the available cameras |
| Cameras.LegacyNextIs | app/src/main/java/org/lineageos/aperture/utils/CameraManager.kt:72-89 | the earlier manager steps within the available list from the facing's main camera, or the external camera itself, and throws when that list is empty |
| Cameras.LegacyNextMatchesCycle | app/src/main/java/org/lineageos/aperture/utils/CameraManager.kt:72-89 | flipping from a back or front camera whose facing has a main camera, or from an external camera, is the wrap-around successor in the available list, failing exactly when that list is empty |
| Cameras.LegacyNextWithoutMain | app/src/main/java/org/lineageos/aperture/utils/CameraManager.kt:72-89 | a back or front camera of a facing the provider lacks flips to the first available camera, and throws when none is available |
| Cameras.FacingType | app/src/main/java/org/lineageos/aperture/models/CameraFacing.kt:8-23 | a facing is of the hot-plugged type exactly when it is the external one; the unknown, front and back facings are internal |
| ImageProxy.Column | app/src/main/java/org/lineageos/aperture/ImageProxyExt.kt:55-60 | a column of the plane holds one byte per row |
| ImageProxy.Columns | app/src/main/java/org/lineageos/aperture/ImageProxyExt.kt:54-61 | the first n columns hold n times the height bytes |
| ImageProxy.Turned | app/src/main/java/org/lineageos/aperture/ImageProxyExt.kt:51-62 | the rotated plane holds exactly as many bytes as the plane |
| ImageProxy.TurnedIndexIn | app/src/main/java/org/lineageos/aperture/ImageProxyExt.kt:54-61 | every turned position lies inside the rotated plane; the last column's positions run from the bottom row up |
| ImageProxy.ColumnsPixel | app/src/main/java/org/lineageos/aperture/ImageProxyExt.kt:54-61 | each pixel of the first n columns lands at its turned position |
| ImageProxy.TurnedPixel | app/src/main/java/org/lineageos/aperture/ImageProxyExt.kt:51-62 | each pixel of the plane lands at its turned position in the rotated plane |
| ImageProxy.TurnTwice | app/src/main/java/org/lineageos/aperture/ImageProxyExt.kt:51-62 | rotating twice turns the image half way round: each pixel comes from the opposite corner |
| ImageProxy.PlanePosition | app/src/main/java/org/lineageos/aperture/ImageProxyExt.kt:54-61 | every index of a plane is the position of exactly one column and row |
| ImageProxy.TurnFourTimes | app/src/main/java/org/lineageos/aperture/ImageProxyExt.kt:51-62 | rotating four times gives back the original plane |
| ImageProxy.RotatePlane | app/src/main/java/org/lineageos/aperture/ImageProxyExt.kt:51-62 | fails exactly when the plane is larger than the bytes given; otherwise every pixel lands at its turned position |
| ImageProxy.RotateLuminancePlane | app/src/main/java/org/lineageos/aperture/ImageProxyExt.kt:51-62 | the loop computes the same rotated plane, and fails in the same cases |
| ImageProxy.LuminanceSource | app/src/main/java/org/lineageos/aperture/ImageProxyExt.kt:67-86 | a frame shown at 90 or 270 degrees is rotated and its width and height swapped, failing exactly when its plane is short; any other frame is passed on as it is; the crop is always the whole plane and rows are mirrored |
| ImageProxy.TurnedSourcePixel | app/src/main/java/org/lineageos/aperture/ImageProxyExt.kt:75-82 | each pixel of a turned frame's source is the frame pixel one quarter turn away |

The utility copies of the preference code are modelled by the same members:
- `aperture/utils/SharedPreferencesUtils.kt` is modelled by:
  - `Prefs.FrontBackFacingRoundTrip` (lines 14-31);
  - `Prefs.PhotoVideoModeRoundTrip` (33-53);
  - `Prefs.CaptureModeReads` (56-69);
  - `Prefs.PhotoFlashIntRoundTrip` (71-95);
  - `Prefs.HighestQualityReads` (98-111).
- `aperture/utils/PhotoUtils.kt:8-20` is modelled by `Prefs.CaptureModeReads`.
- `aperture/utils/VideoUtils.kt:8-21` is modelled by `Prefs.HighestQualityReads`.
- `selfie/utils/SharedPreferencesUtils.kt` is modelled by:
  - `Prefs.LastCameraFacingRoundTrip`, which covers its four facings (lines 11-35);
  - `Prefs.PhotoVideoModeRoundTrip` (37-57);
  - `Prefs.OffOn3GridRoundTrip` (59-79);
  - `Prefs.CaptureModeReads` (82-95);
  - `Prefs.PhotoFlashIntRoundTrip` (97-121);
  - `Prefs.PhotoEffectRoundTrip` and `Prefs.PhotoEffectDefaults` (123-153);
  - `Prefs.HighestQualityReads` (156-169).

## Notes on the source's behaviour

- A second run over an already populated `libs/` does not fail: `main` removes the directory before resolving (`app/update_libs.py:223-227`). Only a repeated dependency entry within one run fails when its directory is created. `UpdateLibs.Run` starts every run from an empty `libs/`.
- The stanza renderer applies the alias table once, and a known library's own name then overrides it (`app/update_libs.py:195-208`). The second alias lookup is in the root list instead (`app/update_libs.py:257`). `Libs.AliasIdempotent` shows that this second lookup never changes a name.
- A non-prebuilt library with no file does not fail inside the renderer. `get_soong_module` returns nothing, and the join of `libs/Android.bp` then fails on it (`app/update_libs.py:217-220`, `app/update_libs.py:265-269`). `UpdateLibs.RunFailsOnlyInResolve` shows that this cannot happen after a successful resolution.
- The managed-block rewrite replaces every block that opens with the marker line, not just one. An opening line with no closing line drops the rest of the file (`app/update_libs.py:247-259`).
- Manifest levels are converted with `int`, so a level `int` does not accept aborts the run (`app/update_libs.py:170-171`). The model accepts an optional sign followed by ASCII digits; see `Vendoring.AttrInt` under "Left out".

## Left out

- Network, file system, zip extraction and XML parsing are parameters. The fetch is a function from URL to status and body, and the POM and manifest parsers are functions from bytes to entries or attributes. Partial files left behind by a failed run are not modelled.
- Python's `print` progress lines and Gradle's log output are not modelled; they do not affect the generated files.
- The Gradle file rewrite is modelled, but the shipped tables switch it off (`Libs.UpdateGradle` is false). `UpdateLibs.RunFailsOnlyInResolve` is stated for that setting.
- The unused `soong_deps` list of `app/update_libs.py:241-243` is not modelled. It builds generator objects that nothing reads.
- GradleModules: the directory walk that finds the POM files is an input, the POMs in walk order. Copying the artifact and extracting its manifest are I/O.
- Float parsing of the zoom-ratio overlay is a parameter (`toFloat`), and ratios are exact reals. Float rounding and the sorted-map order of `toSortedMap` are left out.
- Overlay.AdditionalVideoConfigurations: the conversion of the inner maps to lists at the end (`toList`) is not modelled; the model keeps the maps.
- ImageProxy.LuminanceSource: covers only YUV frames. The bitmap path for other formats is platform code.
- ImageProxy.RotatePlane: `width * height` is unbounded. Kotlin's 32-bit overflow of that product on huge frames is not modelled.
- The bounds check that ZXing's `PlanarYUVLuminanceSource` makes on its crop is left out. It is library code, and the crop is always the whole plane.
- Wifi.FromQr: the upper-casing of the `WIFI:` prefix is modelled on ASCII letters only. Kotlin's `uppercase()` applies full Unicode case mapping. So the source also accepts `wıfı:S:x;;` (dotless i upper-cases to `I`), which the model rejects. A character that upper-cases to two, such as `ﬁ` to `FI`, makes the prefix test look at different characters than the `substring(5)` that follows; the model does not reproduce that shift.
- Wifi.NewNetwork: Kotlin's `assert` fires only when the JVM runs with assertions enabled, so the model takes that switch as a parameter.
- Controls: the torch state is assumed to follow `enableTorch` at once; the platform's asynchronous update is not modelled.
- CameraTypes: `toString` and the string-resource descriptions are left out. They are display text.
- Cameras: the lens-facing mapping of `Camera.kt` and each camera's capabilities are inputs. Camera ids are assumed distinct, as the provider guarantees.
- Cameras.LegacyMain: the older manager's camera map keeps the provider's order, since `associate` builds an insertion-ordered map. The ids are taken as distinct, so the case of a later camera replacing an earlier one with the same id, in the earlier one's place, is not modelled.
- GradleBp.VendoredCovers: once the platform test reads the artifact's own name, two artifacts of one module can disagree about being vendored, and only the module's first artifact decides. So "every module with a vendored artifact is copied" holds only when every artifact is named after its module. The general statement is `GradleBp.VendoredArtifacts`' `FirstVendored` clause.
- TimeFormat: the selfie app's `TimeUtils` names its parameter `nanos` but converts it as seconds. The model follows the code and takes seconds.
- ImageProxy.LuminanceSource: a frame shown at 270 degrees is turned the same way as one at 90 degrees, as written; no separate counter-clockwise turn is modelled.
- Orientation: the drawing geometry of `LevelerView` and `Rotation.getDifference` work on floats and are left out. The orientation reading is an integer input.
- Prefs.FrontBackFacingRoundTrip: the older setters were written for enums with fewer constants, so the round trip requires one of the constants they name.
- Prefs.PhotoVideoModeRoundTrip: requires photo or video for the same reason.
- Prefs.OffOn3GridRoundTrip: requires off or 3x3 for the same reason.
- Prefs.LastSavedUriRoundTrip: URIs are held as their text; `Uri.parse` is the identity on it.
- CameraTypes: the float zoom values are held in tenths (1.0x is 10), which keeps them exact.
- Controls: the flash mode `SCREEN` of `models/FlashMode` is modelled as the controller's screen flash constant.
- Exif: reading the orientation tag from an image stream is I/O and left out. Only the code-to-transform table is modelled.
- Countdown: the fade-out animation, the text view and `onPreviewAreaChanged` are display code and left out.
- GradleModules.ModuleStanzas: an AAR's stanzas carry the levels of the corrected reading `GradleModules.Levels`. As written, the task keeps the default levels for every AAR that has a `uses-sdk` element (see Findings and `GradleModules.LevelsAsWritten`).
- GradleModules.GenerateBp: builds on `GradleModules.ModuleStanzas`, so it too renders the corrected levels rather than the defaults the task writes as it stands.
- Vendoring.Record: the POM reader is a parameter. A `groupId` or `artifactId` element with no text gives Python's `None`, which is not modelled; element texts are strings. The reader's descendant search `.//groupId` is also part of that parameter.
- Vendoring.AttrInt: Python's `int` also accepts surrounding whitespace, `_` between digits and non-ASCII decimal digits. The model's `ParseInt` accepts only an optional sign and ASCII digits, so a level such as `" 21"`, `"2_1"` or one in Arabic-Indic digits is modelled as a failure where the script reads it.
- Vendoring.ReadLevels: inherits the narrower integer syntax of `Vendoring.AttrInt`.
- Overlay.ToInt: Kotlin's `toInt` also accepts non-ASCII decimal digits; the model accepts ASCII digits only.
- ManagedBlock.SplitLines: splits only at `\n`. Python's `splitlines` also breaks at `\r`, `\r\n`, `\v`, `\f`, `\x1c`, `\x1d`, `\x1e`, `\x85`, `\u2028` and `\u2029`; the model takes `Android.bp` to use `\n` line breaks only.
- Wifi.ToSuggestion: the platform builder's check in `setSsid`, which rejects a name that is not valid Unicode such as one holding a lone surrogate, and any checks `build()` makes are not modelled. Only the passphrase setters' ASCII check is.

## Findings

| source | as written | input that shows it | evidently intended | confidence | as-written member | corrected member |
|---|---|---|---|---|---|---|
| app/build.gradle.kts:245-249 | the manifest is parsed with Groovy's default, namespace-aware `XmlParser`, which keys attributes by qualified name, so `usesSdk.get("@targetSdkVersion")` and `usesSdk.get("@minSdkVersion")` find nothing, the `as Int?` casts give `null`, and both levels silently keep their defaults (were a plain-name lookup to hit, the string value would make `as Int?` throw `ClassCastException`) | an AAR whose manifest declares `android:minSdkVersion="21"`: the stanza gets `min_sdk_version: "14"` instead of `"21"` | read each declared level as an integer, as `app/update_libs.py:168-171` does, and fall back to the default only when the attribute is absent | not executed | GradleModules.LevelsAsWritten | GradleModules.Levels |
