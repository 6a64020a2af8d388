/**
 * The `Congregacoes` page: the Google Maps link for a congregation, the map's
 * centre, the markers, and the list/map toggle.
 */
module CongregationsPage {
  import opened Wrappers
  import opened Seqs
  import opened JsString
  import opened JsValue

  /**
   * A coordinate, kept opaque: the text it renders as in a template, and
   * whether JavaScript takes it as truthy (`0` and `NaN` are not).
   */
  datatype Coord = Coord(text: string, truthy: bool)

  predicate Present(c: Option<Coord>) {
    c.Some? && c.value.truthy
  }

  /** What `openMaps` and the map read of a congregation or of the church record. */
  datatype Place = Place(name: string, latitude: Option<Coord>, longitude: Option<Coord>, address: Option<string>)

  const DirectionsPrefix := "https://www.google.com/maps/dir/?api=1&destination="
  const SearchPrefix := "https://www.google.com/maps/search/?api=1&query="

  /**
   * `openMaps`: directions to the coordinates when both are set, otherwise a
   * search for the encoded address when there is one, otherwise nothing is
   * opened. `encode` stands for `encodeURIComponent`.
   */
  function MapsUrl(p: Place, encode: string -> string): (url: Option<string>)
    ensures url.Some? <==> (Present(p.latitude) && Present(p.longitude)) || TruthyText(p.address)
    ensures Present(p.latitude) && Present(p.longitude) ==>
      url == Some(DirectionsPrefix + p.latitude.value.text + "," + p.longitude.value.text)
    ensures !(Present(p.latitude) && Present(p.longitude)) && TruthyText(p.address) ==>
      url == Some(SearchPrefix + encode(p.address.value))
  {
    if Present(p.latitude) && Present(p.longitude) then
      Some(DirectionsPrefix + p.latitude.value.text + "," + p.longitude.value.text)
    else if TruthyText(p.address) then
      Some(SearchPrefix + encode(p.address.value))
    else None
  }

  /** The destination read back out of a directions link: latitude and longitude, in that order. */
  lemma DirectionsRoundTrip(p: Place, encode: string -> string)
    requires Present(p.latitude) && Present(p.longitude)
    requires ',' !in p.latitude.value.text && ',' !in p.longitude.value.text
    ensures var url := MapsUrl(p, encode).value;
      && url[..|DirectionsPrefix|] == DirectionsPrefix
      && Split(url[|DirectionsPrefix|..], ',') == [p.latitude.value.text, p.longitude.value.text]
  {
    var lat, lng := p.latitude.value.text, p.longitude.value.text;
    var url := MapsUrl(p, encode).value;
    assert url[..|DirectionsPrefix|] == DirectionsPrefix;
    assert url[|DirectionsPrefix|..] == lat + [','] + lng;
    SplitAtSep(lat, lng, ',');
    SplitNoSep(lng, ',');
  }

  /** The fallback centre: Brasília. */
  const DefaultCenter := (Some(Coord("-15.7801", true)), Some(Coord("-47.9292", true)))

  /**
   * `mapCenter` as written: the first congregation's coordinates when it has
   * a latitude (its longitude is not checked), else the church's when both
   * are set, else the default.
   */
  function MapCenterAsWritten(congregations: seq<Place>, church: Option<Place>): (center: (Option<Coord>, Option<Coord>))
    ensures congregations != [] && Present(congregations[0].latitude) ==>
      center == (congregations[0].latitude, congregations[0].longitude)
    ensures !(congregations != [] && Present(congregations[0].latitude)) ==>
      center == ChurchOrDefault(church)
  {
    if |congregations| > 0 && Present(congregations[0].latitude) then
      (congregations[0].latitude, congregations[0].longitude)
    else ChurchOrDefault(church)
  }

  /** `churchInfo?.latitude && churchInfo?.longitude ? [...] : [-15.7801, -47.9292]`. */
  function ChurchOrDefault(church: Option<Place>): (center: (Option<Coord>, Option<Coord>))
    ensures Present(center.0) && Present(center.1)
    ensures church.Some? && Present(church.value.latitude) && Present(church.value.longitude) ==>
      center == (church.value.latitude, church.value.longitude)
  {
    if church.Some? && Present(church.value.latitude) && Present(church.value.longitude) then
      (church.value.latitude, church.value.longitude)
    else DefaultCenter
  }

  /** A first congregation with a latitude but no longitude centres the map on a missing longitude. */
  lemma MapCenterAsWrittenMissesLongitude(first: Place, rest: seq<Place>, church: Option<Place>)
    requires Present(first.latitude) && first.longitude.None?
    ensures !Present(MapCenterAsWritten([first] + rest, church).1)
  {
  }

  /** `mapCenter` checking both coordinates of the first congregation, as lines 49 and 193 do. */
  function MapCenter(congregations: seq<Place>, church: Option<Place>): (center: (Option<Coord>, Option<Coord>))
    ensures Present(center.0) && Present(center.1)
    ensures congregations != [] && HasCoords(congregations[0]) ==>
      center == (congregations[0].latitude, congregations[0].longitude)
    ensures !(congregations != [] && HasCoords(congregations[0])) ==> center == ChurchOrDefault(church)
  {
    if |congregations| > 0 && HasCoords(congregations[0]) then
      (congregations[0].latitude, congregations[0].longitude)
    else ChurchOrDefault(church)
  }

  /** The centres agree whenever the first congregation has both coordinates or no latitude. */
  lemma MapCenterAgrees(congregations: seq<Place>, church: Option<Place>)
    requires congregations == [] || HasCoords(congregations[0]) || !Present(congregations[0].latitude)
    ensures MapCenter(congregations, church) == MapCenterAsWritten(congregations, church)
  {
  }

  predicate HasCoords(p: Place) {
    Present(p.latitude) && Present(p.longitude)
  }

  /** The congregations that get a marker on the map. */
  function Markers(congregations: seq<Place>): seq<Place> {
    Filter(congregations, HasCoords)
  }

  /** Exactly the congregations with both coordinates get a marker, in list order. */
  lemma MarkersSpec(congregations: seq<Place>)
    ensures forall p :: p in Markers(congregations) <==> p in congregations && HasCoords(p)
    ensures Subseq(Markers(congregations), congregations)
  {
    FilterIsSubseq(congregations, HasCoords);
  }

  /** A marker's "Ver rota" link always gives directions to that marker's coordinates. */
  lemma MarkerLinksGiveDirections(congregations: seq<Place>, encode: string -> string)
    ensures forall p :: p in Markers(congregations) ==>
      MapsUrl(p, encode) == Some(DirectionsPrefix + p.latitude.value.text + "," + p.longitude.value.text)
  {
  }

  /** What the page body shows. */
  datatype Body = NoCongregations | ListView(items: seq<Place>)
                | MapView(center: (Option<Coord>, Option<Coord>), markers: seq<Place>)

  /** The `viewMode` toggle and the body it selects. */
  class CongregationsView {
    var viewMode: string

    predicate Valid()
      reads this
    {
      viewMode == "list" || viewMode == "map"
    }

    constructor ()
      ensures Valid() && viewMode == "list"
    {
      viewMode := "list";
    }

    /** The "Lista" button. */
    method ShowList()
      modifies this
      ensures Valid() && viewMode == "list"
    {
      viewMode := "list";
    }

    /** The "Mapa" button. */
    method ShowMap()
      modifies this
      ensures Valid() && viewMode == "map"
    {
      viewMode := "map";
    }

    /** Whether the button for `mode` is drawn as the selected one. */
    predicate Highlighted(mode: string)
      reads this
    {
      viewMode == mode
    }

    /** Exactly one of the two buttons is highlighted. */
    lemma OneHighlighted()
      requires Valid()
      ensures Highlighted("list") != Highlighted("map")
    {
    }

    function Render(congregations: seq<Place>, church: Option<Place>): (b: Body)
      reads this
      ensures b.NoCongregations? <==> congregations == []
      ensures b.ListView? ==> b.items == congregations && viewMode == "list"
      ensures b.MapView? ==>
        viewMode != "list" && b.markers == Markers(congregations) && Present(b.center.0) && Present(b.center.1)
    ensures b.MapView? ==> b.center == MapCenter(congregations, church)
    {
      if |congregations| == 0 then NoCongregations
      else if viewMode == "list" then ListView(congregations)
      else MapView(MapCenter(congregations, church), Markers(congregations))
    }
  }
}
