/** The device overlay's camera settings given as flat string arrays of
    triples: extra video frame rates per camera and quality, and logical
    zoom ratios per camera. */
module Overlay {
  import opened Wrappers
  import opened Seqs
  import opened Strs
  import opened Modes

  // ---------------------------------------------------------------------
  // Number tokens

  /** The range of a Kotlin `Int`. */
  const IntMin := -0x8000_0000
  const IntMax := 0x7fff_ffff

  /** `String.toInt()`: decimal syntax within the `Int` range; anything else
      throws. */
  function ToInt(s: string): (r: Result<int>)
    ensures r.Ok? <==> ParseInt(s).Some? && IntMin <= ParseInt(s).value <= IntMax
    ensures r.Ok? ==> r.value == ParseInt(s).value
  {
    var n := ParseInt(s);
    if n.Some? && IntMin <= n.value <= IntMax then Ok(n.value)
    else Err("NumberFormatException")
  }

  /** `Int.absoluteValue`: the smallest `Int` has no positive counterpart
      and stays as it is. */
  function AbsoluteValue(n: int): (r: int)
    requires IntMin <= n <= IntMax
    ensures n != IntMin ==> r >= 0 && (r == n || r == -n)
    ensures n == IntMin ==> r == n
  {
    if n == IntMin then n else if n < 0 then -n else n
  }

  /** Whether a frame-rate token asks for the rate to be marked, by a leading
      minus sign. */
  predicate Negative(token: string) {
    |token| > 0 && token[0] == '-'
  }

  /** The frame rate a well-formed token names, if any. */
  function RateOf(token: string): (r: Option<FrameRate>)
    ensures r.Some? ==> ToInt(token).Ok? && Value(r.value) == AbsoluteValue(ToInt(token).value)
  {
    var n := ToInt(token);
    if n.Ok? then FromValue(AbsoluteValue(n.value)) else None
  }

  /** Whether every token of the list converts. */
  predicate AllInts(tokens: seq<string>) {
    forall i :: 0 <= i < |tokens| ==> ToInt(tokens[i]).Ok?
  }

  /** A token naming the rate with none after it naming the same rate. */
  predicate LastFor(tokens: seq<string>, i: int, f: FrameRate) {
    0 <= i < |tokens| && RateOf(tokens[i]) == Some(f) &&
    forall j :: i < j < |tokens| ==> RateOf(tokens[j]) != Some(f)
  }

  /** The map with a token's rate entered, if it names one. */
  function PutRate(m: map<FrameRate, bool>, token: string): (r: map<FrameRate, bool>)
    ensures RateOf(token).None? ==> r == m
    ensures RateOf(token).Some? ==> r == m[RateOf(token).value := Negative(token)]
  {
    var f := RateOf(token);
    if f.Some? then m[f.value := Negative(token)] else m
  }

  /** The frame rates of a `|`-separated field, `mapNotNull { ... }.toMap()`:
      unknown rates are dropped, a later token for a rate overrides an
      earlier one, and a malformed number throws. */
  function FrameRatesOf(tokens: seq<string>): (r: Result<map<FrameRate, bool>>)
    ensures r.Ok? <==> AllInts(tokens)
    decreases |tokens|
  {
    if |tokens| == 0 then Ok(map[])
    else
      var init := tokens[..|tokens| - 1];
      var last := tokens[|tokens| - 1];
      assert forall i :: 0 <= i < |init| ==> init[i] == tokens[i];
      var rest := FrameRatesOf(init);
      if rest.Err? || ToInt(last).Err? then Err("NumberFormatException")
      else Ok(PutRate(rest.value, last))
  }

  /** Every rate a token names is in the map. */
  lemma {:induction false} FrameRatesHas(tokens: seq<string>, i: int)
    requires AllInts(tokens) && 0 <= i < |tokens| && RateOf(tokens[i]).Some?
    ensures RateOf(tokens[i]).value in FrameRatesOf(tokens).value
    decreases |tokens|
  {
    var init := tokens[..|tokens| - 1];
    assert forall k :: 0 <= k < |init| ==> init[k] == tokens[k];
    if i < |tokens| - 1 {
      FrameRatesHas(init, i);
    }
  }

  /** Every rate in the map is named by some token. */
  lemma {:induction false} FrameRatesFrom(tokens: seq<string>, f: FrameRate)
    requires AllInts(tokens) && f in FrameRatesOf(tokens).value
    ensures exists i :: 0 <= i < |tokens| && RateOf(tokens[i]) == Some(f)
    decreases |tokens|
  {
    var init := tokens[..|tokens| - 1];
    var last := tokens[|tokens| - 1];
    assert forall k :: 0 <= k < |init| ==> init[k] == tokens[k];
    if RateOf(last) != Some(f) {
      FrameRatesFrom(init, f);
      var i :| 0 <= i < |init| && RateOf(init[i]) == Some(f);
      assert RateOf(tokens[i]) == Some(f);
    }
  }

  /** The last token naming a rate decides whether it is marked. */
  lemma {:induction false} FrameRatesLast(tokens: seq<string>, i: int, f: FrameRate)
    requires AllInts(tokens) && LastFor(tokens, i, f)
    ensures f in FrameRatesOf(tokens).value && FrameRatesOf(tokens).value[f] == Negative(tokens[i])
    decreases |tokens|
  {
    FrameRatesHas(tokens, i);
    var init := tokens[..|tokens| - 1];
    assert forall k :: 0 <= k < |init| ==> init[k] == tokens[k];
    if i < |tokens| - 1 {
      assert LastFor(init, i, f);
      FrameRatesLast(init, i, f);
    }
  }

  // ---------------------------------------------------------------------
  // Quality tokens

  /** The qualities an overlay may name. */
  function QualityOf(token: string): (r: Option<Quality>)
    ensures r.Some? ==> r.value in {Sd, Hd, Fhd, Uhd}
  {
    if token == "sd" then Some(Sd)
    else if token == "hd" then Some(Hd)
    else if token == "fhd" then Some(Fhd)
    else if token == "uhd" then Some(Uhd)
    else None
  }

  /** Whether some token of a field names the quality. */
  predicate Mentions(tokens: seq<string>, q: Quality)
    decreases |tokens|
  {
    |tokens| > 0 && (QualityOf(tokens[0]) == Some(q) || Mentions(tokens[1..], q))
  }

  /** A field mentions a quality exactly when one of its tokens names it. */
  lemma {:induction false} MentionsAt(tokens: seq<string>, q: Quality)
    ensures Mentions(tokens, q) <==> exists i :: 0 <= i < |tokens| && QualityOf(tokens[i]) == Some(q)
    decreases |tokens|
  {
    if |tokens| > 0 {
      MentionsAt(tokens[1..], q);
      if exists i :: 0 <= i < |tokens| && QualityOf(tokens[i]) == Some(q) {
        var i :| 0 <= i < |tokens| && QualityOf(tokens[i]) == Some(q);
        if i > 0 {
          assert tokens[1..][i - 1] == tokens[i];
        }
      }
      if Mentions(tokens[1..], q) {
        var i :| 0 <= i < |tokens[1..]| && QualityOf(tokens[1..][i]) == Some(q);
        assert tokens[i + 1] == tokens[1..][i];
      }
    }
  }

  /** `mapNotNull { ... }`: the named qualities in order, unknown names
      dropped. */
  function KnownQualities(tokens: seq<string>): (r: seq<Quality>)
    ensures forall q :: q in r <==> Mentions(tokens, q)
    decreases |tokens|
  {
    if |tokens| == 0 then []
    else
      var rest := KnownQualities(tokens[1..]);
      var q := QualityOf(tokens[0]);
      if q.Some? then [q.value] + rest else rest
  }

  /** The qualities of a `|`-separated field, each once. */
  function QualitiesOf(tokens: seq<string>): (r: seq<Quality>)
    ensures NoDup(r)
    ensures forall q :: q in r <==> Mentions(tokens, q)
  {
    var known := KnownQualities(tokens);
    var r := Distinct(known);
    assert forall q :: q in r <==> q in known;
    r
  }

  // ---------------------------------------------------------------------
  // Additional video configurations

  type VideoConfigs = map<string, map<Quality, map<FrameRate, bool>>>

  /** The rates a configuration holds for a camera and quality, none when
      either is missing. */
  function Rates(cfg: VideoConfigs, cameraId: string, q: Quality): map<FrameRate, bool> {
    if cameraId in cfg && q in cfg[cameraId] then cfg[cameraId][q] else map[]
  }

  /** The `forEach` over the qualities: `getOrCreate(cameraId)`, then
      `getOrCreate(quality)`, then `putAll(frameRates)`. A camera gets an
      entry only when at least one quality is named. */
  function AddQualities(cfg: VideoConfigs, cameraId: string, qs: seq<Quality>, rates: map<FrameRate, bool>): (r: VideoConfigs)
    ensures |qs| == 0 ==> r == cfg
    ensures r.Keys == cfg.Keys + (if |qs| > 0 then {cameraId} else {})
    ensures forall c :: c in cfg && c != cameraId ==> r[c] == cfg[c]
    decreases |qs|
  {
    if |qs| == 0 then cfg
    else
      var cam := if cameraId in cfg then cfg[cameraId] else map[];
      var inner := if qs[0] in cam then cam[qs[0]] else map[];
      AddQualities(cfg[cameraId := cam[qs[0] := inner + rates]], cameraId, qs[1..], rates)
  }

  /** Each named quality of the camera gets the rates on top of the ones it
      had, a later rate for the same frame rate winning; every other
      quality and camera keeps its rates. */
  lemma {:induction false} AddQualitiesRates(cfg: VideoConfigs, cameraId: string, qs: seq<Quality>, rates: map<FrameRate, bool>, c: string, q: Quality)
    ensures Rates(AddQualities(cfg, cameraId, qs, rates), c, q) ==
      if c == cameraId && q in qs then Rates(cfg, c, q) + rates else Rates(cfg, c, q)
    decreases |qs|
  {
    if |qs| > 0 {
      var cam := if cameraId in cfg then cfg[cameraId] else map[];
      var inner := if qs[0] in cam then cam[qs[0]] else map[];
      var next := cfg[cameraId := cam[qs[0] := inner + rates]];
      assert AddQualities(cfg, cameraId, qs, rates) == AddQualities(next, cameraId, qs[1..], rates);
      AddQualitiesRates(next, cameraId, qs[1..], rates, c, q);
      NextRates(cfg, cameraId, qs[0], rates, c, q);
      assert q in qs <==> q == qs[0] || q in qs[1..];
      if c == cameraId && q == qs[0] {
        PutAllTwice(inner, rates);
      }
    }
  }

  /** One `putAll` into a quality of a camera. */
  lemma {:induction false} NextRates(cfg: VideoConfigs, cameraId: string, q0: Quality, rates: map<FrameRate, bool>, c: string, q: Quality)
    ensures var cam := if cameraId in cfg then cfg[cameraId] else map[];
      var inner := if q0 in cam then cam[q0] else map[];
      Rates(cfg[cameraId := cam[q0 := inner + rates]], c, q) ==
        if c == cameraId && q == q0 then Rates(cfg, c, q) + rates else Rates(cfg, c, q)
  {
  }

  /** Putting the same entries twice is putting them once. */
  lemma {:induction false} PutAllTwice<K, V>(m: map<K, V>, rates: map<K, V>)
    ensures m + rates + rates == m + rates
  {
  }

  /** The array read three entries at a time: camera, qualities, rates. A
      short tail is not a triple; `AdditionalVideoConfigurations` only
      reads arrays that have none. */
  function Triples(arr: seq<string>): (r: seq<(string, string, string)>)
    ensures 3 * |r| <= |arr| < 3 * |r| + 3
    ensures |arr| >= 3 ==> r[0] == (arr[0], arr[1], arr[2])
    decreases |arr|
  {
    if |arr| < 3 then []
    else [(arr[0], arr[1], arr[2])] + Triples(arr[3..])
  }

  /** Three more entries add one more triple at the end. */
  lemma {:induction false} TriplesAppend(arr: seq<string>, t: (string, string, string))
    requires |arr| % 3 == 0
    ensures Triples(arr + [t.0, t.1, t.2]) == Triples(arr) + [t]
    decreases |arr|
  {
    var all := arr + [t.0, t.1, t.2];
    if |arr| == 0 {
      assert all[3..] == [];
    } else {
      assert all[3..] == arr[3..] + [t.0, t.1, t.2];
      TriplesAppend(arr[3..], t);
    }
  }

  /** Whether every triple's rates convert. */
  predicate RatesParse(ts: seq<(string, string, string)>) {
    forall i :: 0 <= i < |ts| ==> AllInts(Split(ts[i].2, '|'))
  }

  /** The rates of all triples convert exactly when those of all but the
      last do and the last one's do. */
  lemma {:induction false} RatesParseSnoc(ts: seq<(string, string, string)>)
    requires |ts| > 0
    ensures RatesParse(ts) <==> RatesParse(ts[..|ts| - 1]) && AllInts(Split(ts[|ts| - 1].2, '|'))
  {
    var init := ts[..|ts| - 1];
    assert forall i :: 0 <= i < |init| ==> init[i] == ts[i];
  }

  /** Whether a triple names the camera and at least one known quality. */
  predicate Names(t: (string, string, string), cameraId: string) {
    t.0 == cameraId && AnyKnown(Split(t.1, '|'))
  }

  /** Whether some token names a quality. */
  predicate AnyKnown(tokens: seq<string>)
    decreases |tokens|
  {
    |tokens| > 0 && (QualityOf(tokens[0]).Some? || AnyKnown(tokens[1..]))
  }

  /** A field names a quality exactly when its de-duplicated qualities are
      not empty. */
  lemma {:induction false} AnyKnownQualities(tokens: seq<string>)
    ensures AnyKnown(tokens) <==> |QualitiesOf(tokens)| > 0
    decreases |tokens|
  {
    var r := QualitiesOf(tokens);
    if |tokens| > 0 {
      AnyKnownQualities(tokens[1..]);
      var rest := QualitiesOf(tokens[1..]);
      if QualityOf(tokens[0]).Some? {
        assert Mentions(tokens, QualityOf(tokens[0]).value);
        assert QualityOf(tokens[0]).value in r;
      } else {
        assert forall q :: Mentions(tokens, q) == Mentions(tokens[1..], q);
        if |rest| > 0 {
          assert rest[0] in rest;
          assert rest[0] in r;
        }
        if |r| > 0 {
          assert r[0] in r;
          assert r[0] in rest;
        }
      }
    }
  }

  /** The triples applied in order. */
  function AddTriples(ts: seq<(string, string, string)>): (r: Result<VideoConfigs>)
    ensures r.Ok? <==> RatesParse(ts)
    decreases |ts|
  {
    if |ts| == 0 then Ok(map[])
    else
      var init := ts[..|ts| - 1];
      var t := ts[|ts| - 1];
      RatesParseSnoc(ts);
      var before := AddTriples(init);
      var rates := FrameRatesOf(Split(t.2, '|'));
      if before.Err? || rates.Err? then Err("NumberFormatException")
      else Ok(AddQualities(before.value, t.0, QualitiesOf(Split(t.1, '|')), rates.value))
  }

  /** The cameras that triples name with a known quality, gathered in
      order. */
  function NamedCameras(ts: seq<(string, string, string)>): set<string>
    decreases |ts|
  {
    if |ts| == 0 then {}
    else
      var t := ts[|ts| - 1];
      NamedCameras(ts[..|ts| - 1]) + (if Names(t, t.0) then {t.0} else {})
  }

  /** The loaded configuration has exactly the named cameras as keys. */
  lemma {:induction false} AddTriplesKeys(ts: seq<(string, string, string)>)
    requires RatesParse(ts)
    ensures AddTriples(ts).value.Keys == NamedCameras(ts)
    decreases |ts|
  {
    if |ts| > 0 {
      var init := ts[..|ts| - 1];
      var t := ts[|ts| - 1];
      RatesParseSnoc(ts);
      AddTriplesKeys(init);
      var qs := QualitiesOf(Split(t.1, '|'));
      AnyKnownQualities(Split(t.1, '|'));
      assert AddTriples(ts).value == AddQualities(AddTriples(init).value, t.0, qs, FrameRatesOf(Split(t.2, '|')).value);
    }
  }

  /** A camera is named exactly when some triple names it. */
  lemma {:induction false} NamedCamerasExist(ts: seq<(string, string, string)>, c: string)
    ensures c in NamedCameras(ts) <==> exists i :: 0 <= i < |ts| && Names(ts[i], c)
    decreases |ts|
  {
    if |ts| > 0 {
      var init := ts[..|ts| - 1];
      var t := ts[|ts| - 1];
      NamedCamerasExist(init, c);
      if c in NamedCameras(ts) {
        if c in NamedCameras(init) {
          var i :| 0 <= i < |init| && Names(init[i], c);
          assert ts[i] == init[i];
        } else {
          assert Names(ts[|ts| - 1], c);
        }
      }
      if exists i :: 0 <= i < |ts| && Names(ts[i], c) {
        var i :| 0 <= i < |ts| && Names(ts[i], c);
        if i < |init| {
          assert init[i] == ts[i];
        }
      }
    }
  }

  /** A camera is configured exactly when some triple names it with a known
      quality. */
  lemma {:induction false} AddTriplesCameras(ts: seq<(string, string, string)>, c: string)
    requires RatesParse(ts)
    ensures c in AddTriples(ts).value <==> exists i :: 0 <= i < |ts| && Names(ts[i], c)
  {
    AddTriplesKeys(ts);
    NamedCamerasExist(ts, c);
  }

  /** `additionalVideoConfigurations`: an array whose length is not a
      multiple of three is ignored as a whole. */
  function AdditionalVideoConfigurations(arr: seq<string>): (r: Result<VideoConfigs>)
    ensures |arr| % 3 != 0 ==> r == Ok(map[])
    ensures |arr| % 3 == 0 ==> (r.Ok? <==> RatesParse(Triples(arr)))
  {
    if |arr| % 3 != 0 then Ok(map[]) else AddTriples(Triples(arr))
  }

  /** An array of whole triples loads as its triples applied in order. */
  lemma {:induction false} LoadsTriples(arr: seq<string>)
    requires |arr| % 3 == 0
    ensures AdditionalVideoConfigurations(arr) == AddTriples(Triples(arr))
  {
  }

  /** Three more entries keep an array's length a multiple of three. */
  lemma {:induction false} WholeTriples(arr: seq<string>, t: (string, string, string))
    requires |arr| % 3 == 0
    ensures |arr + [t.0, t.1, t.2]| % 3 == 0
  {
    assert |arr + [t.0, t.1, t.2]| == |arr| + 3;
  }

  /** The configured cameras are the ones some triple names with a known
      quality. */
  lemma {:induction false} ConfiguredCameras(arr: seq<string>, c: string)
    requires |arr| % 3 == 0 && AdditionalVideoConfigurations(arr).Ok?
    ensures var ts := Triples(arr);
      c in AdditionalVideoConfigurations(arr).value <==> exists i :: 0 <= i < |ts| && Names(ts[i], c)
  {
    LoadsTriples(arr);
    AddTriplesCameras(Triples(arr), c);
  }

  /** One more triple whose rates convert is applied on top of what the
      earlier ones built. */
  lemma {:induction false} AddTriplesSnoc(init: seq<(string, string, string)>, t: (string, string, string))
    requires RatesParse(init) && AllInts(Split(t.2, '|'))
    ensures AddTriples(init + [t]) ==
      Ok(AddQualities(AddTriples(init).value, t.0, QualitiesOf(Split(t.1, '|')), FrameRatesOf(Split(t.2, '|')).value))
  {
    var ts := init + [t];
    assert ts[..|ts| - 1] == init;
    assert ts[|ts| - 1] == t;
  }

  /** A later triple merges into what earlier ones built: the qualities it
      names for its camera get its rates on top of the rates they had, and
      every other camera and quality keeps its rates. */
  lemma {:induction false} LaterTripleMerges(arr: seq<string>, t: (string, string, string), cameraId: string, q: Quality)
    requires |arr| % 3 == 0
    requires AdditionalVideoConfigurations(arr).Ok? && AllInts(Split(t.2, '|'))
    ensures var before := AdditionalVideoConfigurations(arr).value;
      var after := AdditionalVideoConfigurations(arr + [t.0, t.1, t.2]);
      var rates := FrameRatesOf(Split(t.2, '|')).value;
      after.Ok? &&
      Rates(after.value, cameraId, q) ==
        if cameraId == t.0 && q in QualitiesOf(Split(t.1, '|')) then Rates(before, cameraId, q) + rates
        else Rates(before, cameraId, q)
  {
    var init := Triples(arr);
    var longer := arr + [t.0, t.1, t.2];
    WholeTriples(arr, t);
    LoadsTriples(arr);
    LoadsTriples(longer);
    TriplesAppend(arr, t);
    AddTriplesSnoc(init, t);
    AddQualitiesRates(AddTriples(init).value, t.0, QualitiesOf(Split(t.1, '|')), FrameRatesOf(Split(t.2, '|')).value, cameraId, q);
  }

  /** `getAdditionalVideoFrameRates`: the rates configured for a camera and
      quality, none when either is missing. */
  function AdditionalVideoFrameRates(cfg: VideoConfigs, cameraId: string, q: Quality): (r: map<FrameRate, bool>)
    ensures cameraId !in cfg ==> r == map[]
    ensures cameraId in cfg && q !in cfg[cameraId] ==> r == map[]
    ensures cameraId in cfg && q in cfg[cameraId] ==> r == cfg[cameraId][q]
  {
    Rates(cfg, cameraId, q)
  }

  /** A single triple configures exactly the known qualities it names for
      its camera, each with the triple's rates. */
  lemma {:induction false} SingleTriple(cameraId: string, qualities: string, rates: string, q: Quality)
    requires AllInts(Split(rates, '|'))
    ensures var r := AdditionalVideoConfigurations([cameraId, qualities, rates]);
      r.Ok? &&
      AdditionalVideoFrameRates(r.value, cameraId, q) ==
        if q in QualitiesOf(Split(qualities, '|')) then FrameRatesOf(Split(rates, '|')).value else map[]
  {
    var qs := QualitiesOf(Split(qualities, '|'));
    var m := FrameRatesOf(Split(rates, '|')).value;
    OneTriple(cameraId, qualities, rates);
    AddQualitiesRates(map[], cameraId, qs, m, cameraId, q);
    EmptyPutAll(m);
  }

  /** `putAll` into an empty map copies it. */
  lemma {:induction false} EmptyPutAll<K, V>(m: map<K, V>)
    ensures map[] + m == m
  {
  }

  /** An array of one triple loads as that triple applied to the empty
      configuration. */
  lemma {:induction false} OneTriple(cameraId: string, qualities: string, rates: string)
    requires AllInts(Split(rates, '|'))
    ensures AdditionalVideoConfigurations([cameraId, qualities, rates]) ==
      Ok(AddQualities(map[], cameraId, QualitiesOf(Split(qualities, '|')), FrameRatesOf(Split(rates, '|')).value))
  {
    var arr := [cameraId, qualities, rates];
    var t := (cameraId, qualities, rates);
    assert arr == [] + [t.0, t.1, t.2];
    TriplesAppend([], t);
    LoadsTriples(arr);
    AddTriplesSnoc([], t);
    assert [] + [t] == [t];
  }

  // ---------------------------------------------------------------------
  // Logical zoom ratios

  type ZoomRatios = map<string, map<real, real>>

  /** Whether every ratio token converts, by `String.toFloat()` given as
      `toFloat`. */
  predicate RatiosParse(ts: seq<(string, string, string)>, toFloat: string -> Option<real>) {
    forall i :: 0 <= i < |ts| ==> toFloat(ts[i].1).Some? && toFloat(ts[i].2).Some?
  }

  /** A triple for the camera and approximate ratio. */
  predicate RatioAt(ts: seq<(string, string, string)>, toFloat: string -> Option<real>, i: int, cameraId: string, approx: real) {
    0 <= i < |ts| && ts[i].0 == cameraId && toFloat(ts[i].1) == Some(approx)
  }

  /** The triples applied in order: a later triple for the same camera and
      approximate ratio replaces the exact ratio. */
  function AddRatios(ts: seq<(string, string, string)>, toFloat: string -> Option<real>): (r: Result<ZoomRatios>)
    ensures r.Ok? <==> RatiosParse(ts, toFloat)
    decreases |ts|
  {
    if |ts| == 0 then Ok(map[])
    else
      var init := ts[..|ts| - 1];
      var t := ts[|ts| - 1];
      assert forall i :: 0 <= i < |init| ==> init[i] == ts[i];
      var before := AddRatios(init, toFloat);
      if before.Err? || toFloat(t.1).None? || toFloat(t.2).None? then Err("NumberFormatException")
      else
        var cam := if t.0 in before.value then before.value[t.0] else map[];
        Ok(before.value[t.0 := cam[toFloat(t.1).value := toFloat(t.2).value]])
  }

  /** A camera has an approximate ratio exactly when some triple names the
      pair. */
  lemma {:induction false} AddRatiosKeys(ts: seq<(string, string, string)>, toFloat: string -> Option<real>, c: string, a: real)
    requires RatiosParse(ts, toFloat)
    ensures var z := AddRatios(ts, toFloat).value;
      (c in z && a in z[c]) <==> exists i :: RatioAt(ts, toFloat, i, c, a)
    decreases |ts|
  {
    if |ts| > 0 {
      var init := ts[..|ts| - 1];
      var t := ts[|ts| - 1];
      forall k | 0 <= k < |init|
        ensures init[k] == ts[k] && (RatioAt(init, toFloat, k, c, a) <==> RatioAt(ts, toFloat, k, c, a))
      {
      }
      assert RatiosParse(init, toFloat);
      AddRatiosKeys(init, toFloat, c, a);
      var before := AddRatios(init, toFloat).value;
      var cam := if t.0 in before then before[t.0] else map[];
      var z := before[t.0 := cam[toFloat(t.1).value := toFloat(t.2).value]];
      assert AddRatios(ts, toFloat).value == z;
      if RatioAt(ts, toFloat, |ts| - 1, c, a) {
        assert c in z && a in z[c];
      } else {
        assert (c in z && a in z[c]) <==> (c in before && a in before[c]);
        if c in z && a in z[c] {
          var i :| RatioAt(init, toFloat, i, c, a);
          assert RatioAt(ts, toFloat, i, c, a);
        }
        if exists i :: RatioAt(ts, toFloat, i, c, a) {
          var i :| RatioAt(ts, toFloat, i, c, a);
          assert RatioAt(init, toFloat, i, c, a);
        }
      }
    }
  }

  /** The exact ratio of a camera's approximate ratio comes from the last
      triple for that pair. */
  lemma {:induction false} AddRatiosLast(ts: seq<(string, string, string)>, toFloat: string -> Option<real>, i: int, c: string, a: real)
    requires RatiosParse(ts, toFloat)
    requires RatioAt(ts, toFloat, i, c, a) && forall j :: i < j < |ts| ==> !RatioAt(ts, toFloat, j, c, a)
    ensures var z := AddRatios(ts, toFloat).value;
      c in z && a in z[c] && z[c][a] == toFloat(ts[i].2).value
    decreases |ts|
  {
    var init := ts[..|ts| - 1];
    var t := ts[|ts| - 1];
    forall k | 0 <= k < |init|
      ensures init[k] == ts[k] && (RatioAt(init, toFloat, k, c, a) <==> RatioAt(ts, toFloat, k, c, a))
    {
    }
    assert RatiosParse(init, toFloat);
    var before := AddRatios(init, toFloat).value;
    var cam := if t.0 in before then before[t.0] else map[];
    var z := before[t.0 := cam[toFloat(t.1).value := toFloat(t.2).value]];
    assert AddRatios(ts, toFloat).value == z;
    if i < |ts| - 1 {
      assert !RatioAt(ts, toFloat, |ts| - 1, c, a);
      assert RatioAt(init, toFloat, i, c, a);
      AddRatiosLast(init, toFloat, i, c, a);
      assert z[c][a] == before[c][a];
    }
  }

  /** `logicalZoomRatios`: an array whose length is not a multiple of three
      is ignored as a whole. */
  function LogicalZoomRatios(arr: seq<string>, toFloat: string -> Option<real>): (r: Result<ZoomRatios>)
    ensures |arr| % 3 != 0 ==> r == Ok(map[])
    ensures |arr| % 3 == 0 ==> (r.Ok? <==> RatiosParse(Triples(arr), toFloat))
  {
    if |arr| % 3 != 0 then Ok(map[]) else AddRatios(Triples(arr), toFloat)
  }

  /** `getLogicalZoomRatios`: 1x maps to 1x unless the camera's
      configuration says otherwise, and every configured ratio is kept. */
  function CameraZoomRatios(z: ZoomRatios, cameraId: string): (r: map<real, real>)
    ensures 1.0 in r
    ensures cameraId !in z ==> r == map[1.0 := 1.0]
    ensures cameraId in z ==> r.Keys == {1.0} + z[cameraId].Keys
    ensures cameraId in z ==> forall a :: a in z[cameraId] ==> r[a] == z[cameraId][a]
    ensures (cameraId !in z || 1.0 !in z[cameraId]) ==> r[1.0] == 1.0
  {
    map[1.0 := 1.0] + (if cameraId in z then z[cameraId] else map[])
  }
}
