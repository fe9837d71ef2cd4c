/**
 * The location attached to a memo: a label (placeholder), a coordinate and the map
 * zoom level chosen for it.
 */
module MemoLocations {

  /** Zoom level used when a memo's row has none stored. Its value is not part of this model. */
  const DEFAULT_ZOOM: int

  /** Latitude and longitude are Kotlin `Double`s, modelled as reals. */
  datatype MemoLocation = MemoLocation(placeholder: string, latitude: real, longitude: real, zoom: int)
  {
    /** `isEmpty`: no label and the null-island coordinate; the zoom plays no part. */
    predicate IsEmpty() {
      |placeholder| == 0 && latitude == 0.0 && longitude == 0.0
    }
  }

  /** `MemoLocation.EMPTY`. */
  const EMPTY: MemoLocation := MemoLocation("", 0.0, 0.0, DEFAULT_ZOOM)

  lemma EmptyIsEmpty()
    ensures EMPTY.IsEmpty()
  {
  }

  lemma IsEmptyIgnoresZoom(l: MemoLocation, z: int)
    ensures l.(zoom := z).IsEmpty() == l.IsEmpty()
  {
  }

  lemma PlaceholderMakesNonEmpty(l: MemoLocation)
    requires l.placeholder != ""
    ensures !l.IsEmpty()
  {
  }

  lemma LatitudeMakesNonEmpty(l: MemoLocation)
    requires l.latitude != 0.0
    ensures !l.IsEmpty()
  {
  }

  /** The only empty locations are EMPTY up to the zoom level. */
  lemma IsEmptyIff(l: MemoLocation)
    ensures l.IsEmpty() <==> l == EMPTY.(zoom := l.zoom)
  {
  }
}
