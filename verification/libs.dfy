/** The constant tables the vendoring script is driven by: the repository
    map, the dependency list, the AOSP alias and ignore tables and the
    default platform levels. */
module Libs {

  /** One entry of the dependency list: Maven group, artifact, version and
      the repository it is fetched from (`"sdk"` for a prebuilt the platform
      already ships). */
  datatype Spec = Spec(group: string, artifact: string, version: string, repo: string)

  const AppName: string := "Selfie"

  /** The Gradle build file is left alone. */
  const UpdateGradle: bool := false

  const SdkRepo: string := "sdk"

  const Repositories: map<string, string> := map[
    "sdk" := "",
    "gmaven" := "https://dl.google.com/android/maven2",
    "maven_central" := "https://repo1.maven.org/maven2",
    "luk_camerax" := "https://raw.githubusercontent.com/luk1337/camerax_selfie/master/.m2"
  ]

  const CameraxVersion: string := "1.2.0-beta02"

  const Deps: seq<Spec> := [
    Spec("androidx.core", "core-ktx", "1.8.0", "sdk"),
    Spec("androidx.appcompat", "appcompat", "1.5.0", "sdk"),
    Spec("androidx.constraintlayout", "constraintlayout", "2.1.4", "sdk"),
    Spec("androidx.lifecycle", "lifecycle-viewmodel", "2.5.1", "sdk"),
    Spec("androidx.lifecycle", "lifecycle-viewmodel-ktx", "2.5.1", "sdk"),
    Spec("androidx.preference", "preference", "1.2.0", "sdk"),
    Spec("com.google.android.material", "material", "1.7.0-beta01", "gmaven"),
    Spec("org.jetbrains.kotlinx", "kotlinx-coroutines-android", "1.6.4", "sdk"),
    Spec("org.jetbrains.kotlinx", "kotlinx-coroutines-core", "1.6.4", "sdk"),
    Spec("androidx.camera", "camera-camera2", CameraxVersion, "luk_camerax"),
    Spec("androidx.camera", "camera-core", CameraxVersion, "luk_camerax"),
    Spec("androidx.camera", "camera-extensions", CameraxVersion, "luk_camerax"),
    Spec("androidx.camera", "camera-lifecycle", CameraxVersion, "luk_camerax"),
    Spec("androidx.camera", "camera-video", CameraxVersion, "luk_camerax"),
    Spec("androidx.camera", "camera-view", CameraxVersion, "luk_camerax"),
    Spec("androidx.exifinterface", "exifinterface", "1.3.3", "sdk"),
    Spec("io.coil-kt", "coil", "2.2.0", "maven_central"),
    Spec("io.coil-kt", "coil-base", "2.2.0", "maven_central"),
    Spec("io.coil-kt", "coil-video", "2.2.0", "maven_central"),
    Spec("androidx.lifecycle", "lifecycle-common-java8", "2.5.1", "sdk"),
    Spec("com.squareup.okhttp3", "okhttp", "4.10.0", "maven_central"),
    Spec("com.squareup.okio", "okio", "3.2.0", "maven_central"),
    Spec("com.squareup.okio", "okio-jvm", "3.2.0", "maven_central"),
    Spec("org.jetbrains", "annotations", "13.0", "sdk"),
    Spec("com.google.zxing", "core", "3.5.0", "maven_central")
  ]

  /** Libraries AOSP already carries under another module name. */
  const AospAliases: map<string, string> := map[
    "androidx.constraintlayout_constraintlayout" := "androidx-constraintlayout_constraintlayout",
    "com.google.auto.value_auto-value-annotations" := "auto_value_annotations",
    "com.google.errorprone_error_prone_annotations" := "error_prone_annotations",
    "com.google.guava_listenablefuture" := "guava",
    "org.jetbrains_annotations" := "kotlin-annotations",
    "org.jetbrains.kotlin_kotlin-stdlib" := "kotlin-stdlib",
    "org.jetbrains.kotlin_kotlin-stdlib-jdk7" := "kotlin-stdlib-jdk7",
    "org.jetbrains.kotlin_kotlin-stdlib-jdk8" := "kotlin-stdlib-jdk8",
    "org.jetbrains.kotlinx_kotlinx-coroutines-android" := "kotlinx-coroutines-android",
    "org.jetbrains.kotlinx_kotlinx-coroutines-core" := "kotlinx-coroutines-core"
  ]

  /** Libraries never listed as a dependency of a vendored module. */
  const AospIgnore: seq<string> := ["org.jetbrains.kotlin_kotlin-stdlib-common"]

  const DefaultSdkVersion: int := 31
  const DefaultMinSdkVersion: int := 14

  /** `AOSP_ALIASES.get(name, name)`. */
  function Alias(name: string): (r: string)
    ensures name in AospAliases ==> r == AospAliases[name]
    ensures name !in AospAliases ==> r == name
    ensures r !in AospAliases
  {
    assert forall k :: k in AospAliases ==> AospAliases[k] !in AospAliases;
    if name in AospAliases then AospAliases[name] else name
  }

  /** Every repository named by a dependency has a URL. */
  lemma {:induction false} DepsReposKnown()
    ensures forall i :: 0 <= i < |Deps| ==> Deps[i].repo in Repositories
  {
  }

  /** The prebuilt repository has the empty URL. */
  lemma {:induction false} SdkRepoEmpty()
    ensures SdkRepo in Repositories && Repositories[SdkRepo] == ""
  {
  }

  /** No alias target is itself aliased, so the alias lookup is idempotent. */
  lemma {:induction false} AliasIdempotent(name: string)
    ensures Alias(Alias(name)) == Alias(name)
  {
    if name in AospAliases {
      var v := AospAliases[name];
      assert v in AospAliases.Values;
      assert forall k :: k in AospAliases ==> AospAliases[k] !in AospAliases;
    }
  }

  /** The ignore table is exactly the Kotlin common stdlib, which has no
      alias. */
  lemma {:induction false} IgnoreNotAliased()
    ensures |AospIgnore| == 1 && AospIgnore[0] == "org.jetbrains.kotlin_kotlin-stdlib-common"
    ensures forall i :: 0 <= i < |AospIgnore| ==> AospIgnore[i] !in AospAliases
  {
  }

  /** No two dependencies share a group and artifact. */
  lemma {:induction false} DepsCoordinatesDistinct()
    ensures forall i, j :: 0 <= i < j < |Deps| ==>
      (Deps[i].group, Deps[i].artifact) != (Deps[j].group, Deps[j].artifact)
  {
  }

  lemma {:induction false} DefaultLevelsOrdered()
    ensures DefaultMinSdkVersion == 14 && DefaultSdkVersion == 31
    ensures DefaultMinSdkVersion <= DefaultSdkVersion
  {
  }
}
