/**
 * Dropped map pins: their identity (place identifier when both pins have
 * one, otherwise the pin's own UUID), the hash that goes with it, the
 * duplicate rule used before a pin is added, and how a pin is made from a
 * map item.
 */
module MapInteraction {
  import opened Wrappers
  import opened TextUtil
  import opened MapKitTypes
  import Display = PoiCategoryDisplay

  /** A pin's UUID, drawn fresh for every pin that is made. */
  type Uuid = nat

  datatype Source = OurItem | SystemFeature

  datatype DroppedPin = DroppedPin(
    id: Uuid,
    coordinate: Coordinate,
    name: string,
    placeID: Option<string>,
    category: Option<Display.Category>,
    shortAddress: Option<string>,
    source: Source)

  /** The pin equality `==`: by place identifier when both pins carry one,
      by UUID otherwise. */
  predicate SamePin(a: DroppedPin, b: DroppedPin)
  {
    if a.placeID.Some? && b.placeID.Some? then a.placeID.value == b.placeID.value
    else a.id == b.id
  }

  /** What `hash(into:)` feeds the hasher. */
  datatype HashInput = PlaceIDHash(placeID: string) | UuidHash(id: Uuid)

  function HashInputOf(p: DroppedPin): HashInput
  {
    match p.placeID
    case Some(pid) => PlaceIDHash(pid)
    case None => UuidHash(p.id)
  }

  /** Copies of one pin share its UUID and its place identifier; every pin
      that is made gets a fresh UUID, so any pins the program holds satisfy
      this. */
  predicate IdDeterminesPlaceID(a: DroppedPin, b: DroppedPin)
  {
    a.id == b.id ==> a.placeID == b.placeID
  }

  /** Two pins with place identifiers are equal exactly when the identifiers
      are, whatever their UUIDs, coordinates or names; if either has none,
      equality is UUID equality. */
  lemma SamePinCases(a: DroppedPin, b: DroppedPin)
    ensures a.placeID.Some? && b.placeID.Some? ==> (SamePin(a, b) <==> a.placeID == b.placeID)
    ensures a.placeID.None? || b.placeID.None? ==> (SamePin(a, b) <==> a.id == b.id)
  {
  }

  /** Equal pins hash alike, so the pair `==`/`hash` is a valid `Hashable`
      conformance for pins whose UUID determines their place identifier. */
  lemma HashAgreesWithEquality(a: DroppedPin, b: DroppedPin)
    requires IdDeterminesPlaceID(a, b)
    requires SamePin(a, b)
    ensures HashInputOf(a) == HashInputOf(b)
  {
  }

  /** On such pins `==` is an equivalence relation. */
  lemma SamePinIsEquivalence(a: DroppedPin, b: DroppedPin, c: DroppedPin)
    requires IdDeterminesPlaceID(a, b) && IdDeterminesPlaceID(b, c) && IdDeterminesPlaceID(a, c)
    ensures SamePin(a, a)
    ensures SamePin(a, b) ==> SamePin(b, a)
    ensures SamePin(a, b) && SamePin(b, c) ==> SamePin(a, c)
  {
  }

  /** `pinDedupThresholdMeters`. */
  const PinDedupThresholdMeters: real := 20.0

  /** The duplicate rule against one existing pin: the same place
      identifier when the new pin has one, otherwise at most 20 m apart. */
  predicate DuplicatesPin(newPin: DroppedPin, existing: DroppedPin, distance: DistanceFunction)
  {
    if newPin.placeID.Some? then existing.placeID == newPin.placeID
    else distance(existing.coordinate, newPin.coordinate) <= PinDedupThresholdMeters
  }

  /** `isDuplicate`: a pin with a place identifier duplicates an existing pin
      with the same identifier, and distance is never consulted; a pin
      without one duplicates any existing pin at most 20 m away. */
  function IsDuplicate(newPin: DroppedPin, existing: seq<DroppedPin>, distance: DistanceFunction): (r: bool)
    ensures r <==> exists k :: 0 <= k < |existing| && DuplicatesPin(newPin, existing[k], distance)
    ensures newPin.placeID.Some? ==>
              (r <==> exists k :: 0 <= k < |existing| && existing[k].placeID == newPin.placeID)
    ensures newPin.placeID.None? ==>
              (r <==> exists k :: 0 <= k < |existing| &&
                                  distance(existing[k].coordinate, newPin.coordinate) <= PinDedupThresholdMeters)
    ensures existing == [] ==> !r
  {
    match newPin.placeID
    case Some(pid) =>
      ContainsWhere(existing, (p: DroppedPin) => p.placeID == Some(pid))
    case None =>
      ContainsWhere(existing, (p: DroppedPin) => distance(p.coordinate, newPin.coordinate) <= PinDedupThresholdMeters)
  }

  /** For a pin with a place identifier the duplicate rule is pin equality:
      it is a duplicate exactly when an existing pin with a place identifier
      is equal to it. */
  lemma DuplicateByPlaceIDIsEquality(newPin: DroppedPin, existing: seq<DroppedPin>, distance: DistanceFunction)
    requires newPin.placeID.Some?
    ensures IsDuplicate(newPin, existing, distance) <==>
              exists k :: 0 <= k < |existing| && existing[k].placeID.Some? && SamePin(existing[k], newPin)
  {
    if IsDuplicate(newPin, existing, distance) {
      var k :| 0 <= k < |existing| && existing[k].placeID == newPin.placeID;
      assert existing[k].placeID.Some? && SamePin(existing[k], newPin);
    }
  }

  /** A pin stays a duplicate when more pins are added, and a list grown by
      one pin holds a duplicate exactly when the old list or the new pin
      does. */
  lemma IsDuplicateAppend(newPin: DroppedPin, existing: seq<DroppedPin>, q: DroppedPin, distance: DistanceFunction)
    ensures IsDuplicate(newPin, existing + [q], distance) <==>
              IsDuplicate(newPin, existing, distance) || IsDuplicate(newPin, [q], distance)
  {
    var e := existing + [q];
    if IsDuplicate(newPin, e, distance) {
      var k :| 0 <= k < |e| && (if newPin.placeID.Some? then e[k].placeID == newPin.placeID
                                else distance(e[k].coordinate, newPin.coordinate) <= PinDedupThresholdMeters);
      if k < |existing| {
        assert e[k] == existing[k];
      } else {
        assert e[k] == [q][0];
      }
    }
    if IsDuplicate(newPin, existing, distance) {
      var k :| 0 <= k < |existing| && (if newPin.placeID.Some? then existing[k].placeID == newPin.placeID
                                       else distance(existing[k].coordinate, newPin.coordinate) <= PinDedupThresholdMeters);
      assert e[k] == existing[k];
    }
    if IsDuplicate(newPin, [q], distance) {
      assert e[|existing|] == q;
    }
  }

  /** `makeDroppedPin`: the pin takes the item's coordinate, place identifier
      and category, the trimmed city line as its short address, and the
      item's name, or "Selected Place" when the item has none. */
  function MakeDroppedPin(item: MapItem, source: Source, freshId: Uuid): (p: DroppedPin)
    ensures p.id == freshId && p.source == source
    ensures p.coordinate == item.coordinate && p.placeID == item.identifier && p.category == item.category
    ensures item.name.None? ==> p.name == "Selected Place"
    ensures item.name.Some? ==> p.name == item.name.value
    ensures p.shortAddress.Some? <==> item.cityWithContext.Some?
    ensures p.shortAddress.Some? ==> p.shortAddress.value == Trim(item.cityWithContext.value)
  {
    DroppedPin(
      freshId,
      item.coordinate,
      match item.name case Some(n) => n case None => "Selected Place",
      item.identifier,
      item.category,
      match item.cityWithContext case Some(c) => Some(Trim(c)) case None => None,
      source)
  }
}
