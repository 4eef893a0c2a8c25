/** The kinds of camera module a device overlay can name, and the ones the
    app leaves out of its camera lists. */
module CameraTypes {
  import opened Wrappers
  import opened Seqs

  datatype CameraType = Main | Bokeh | Macro | Telephoto | Tof | UltraWideAngle | Unknown

  /** `values()`: the constants in declaration order. */
  const Values: seq<CameraType> := [Main, Bokeh, Macro, Telephoto, Tof, UltraWideAngle, Unknown]

  lemma {:induction false} ValuesComplete(t: CameraType)
    ensures t in Values
  {
  }

  /** The name a device overlay uses for the type. */
  function OverlayName(t: CameraType): string {
    match t
    case Main => "main"
    case Bokeh => "bokeh"
    case Macro => "macro"
    case Telephoto => "telephoto"
    case Tof => "tof"
    case UltraWideAngle => "ultra_wide_angle"
    case Unknown => "unknown"
  }

  /** The zoom shown for the module, in tenths: 1.0x, 1.5x, 10.0x and 0.7x;
      the ignored types carry the marker -1.0. */
  function ZoomTenths(t: CameraType): int {
    match t
    case Main => 10
    case Macro => 15
    case Telephoto => 100
    case UltraWideAngle => 7
    case _ => IgnoreZoom
  }

  /** `IGNORE`, -1.0 in tenths. */
  const IgnoreZoom := -10

  /** `ignore`: the module is left out exactly when its zoom is the ignore
      marker, which holds for bokeh, time-of-flight and unknown modules and
      for no other. */
  function Ignore(t: CameraType): (r: bool)
    ensures r <==> t == Bokeh || t == Tof || t == Unknown
    ensures !r ==> ZoomTenths(t) > 0
  {
    ZoomTenths(t) == IgnoreZoom
  }

  /** `fromOverlayName`: the first type, in declaration order, with the
      name, and unknown when no type has it. */
  function FromOverlayName(name: string): (r: CameraType)
    ensures (forall t: CameraType :: OverlayName(t) != name) ==> r == Unknown
    ensures r != Unknown ==> OverlayName(r) == name
  {
    var found := FirstWhere(Values, t => OverlayName(t) == name);
    if found.Some? then
      assert found.value in Values;
      found.value
    else
      forall t: CameraType ensures OverlayName(t) != name {
        ValuesComplete(t);
        var i := IndexOf(Values, t);
        assert Values[i] == t;
      }
      Unknown
  }

  /** No two types share an overlay name. */
  lemma {:induction false} OverlayNamesDistinct(a: CameraType, b: CameraType)
    requires OverlayName(a) == OverlayName(b)
    ensures a == b
  {
  }

  /** Every type is found again from its overlay name. */
  lemma {:induction false} FromOverlayNameRoundTrip(t: CameraType)
    ensures FromOverlayName(OverlayName(t)) == t
  {
    var found := FirstWhere(Values, x => OverlayName(x) == OverlayName(t));
    ValuesComplete(t);
    var i := IndexOf(Values, t);
    assert Values[i] == t;
    assert found.Some?;
    OverlayNamesDistinct(found.value, t);
  }
}
