/**
 * The dropped pins of the landmark map and the state that goes with them:
 * the coordinate of the selected map feature, the ids of the last selected
 * and of the briefly enlarged pin, and the current route. A new map item
 * becomes a pin unless it duplicates one already dropped; the enlarged pin
 * shrinks back when a delayed reset fires, unless a newer pin has taken its
 * place meanwhile. The delay is not modelled as time: scheduling returns the
 * timer, and firing it is a separate call.
 */
module PinRegistry {
  import opened Wrappers
  import opened MapKitTypes
  import opened MapInteraction

  /** A scheduled `resetLatestPinAfterDelay`: the enlarged-pin id it
      captured when it was scheduled. */
  datatype ResetTimer = ResetTimer(captured: Option<Uuid>)

  /** No pin duplicates a pin dropped before it. */
  predicate DedupedPins(pins: seq<DroppedPin>, distance: DistanceFunction)
  {
    forall i, j :: 0 <= i < j < |pins| ==> !DuplicatesPin(pins[j], pins[i], distance)
  }

  /** No two pins share a UUID. */
  predicate DistinctIds(pins: seq<DroppedPin>)
  {
    forall i, j :: 0 <= i < j < |pins| ==> pins[i].id != pins[j].id
  }

  /** A list is deduplicated exactly when no pin is a duplicate, under
      `isDuplicate`, of the pins dropped before it. */
  lemma DedupedPinsMeaning(pins: seq<DroppedPin>, distance: DistanceFunction)
    ensures DedupedPins(pins, distance) <==>
              forall j :: 0 <= j < |pins| ==> !IsDuplicate(pins[j], pins[..j], distance)
  {
    if DedupedPins(pins, distance) {
      forall j | 0 <= j < |pins|
        ensures !IsDuplicate(pins[j], pins[..j], distance)
      {
        forall k | 0 <= k < |pins[..j]|
          ensures !DuplicatesPin(pins[j], pins[..j][k], distance)
        {
          assert pins[..j][k] == pins[k];
        }
      }
    }
    if forall j :: 0 <= j < |pins| ==> !IsDuplicate(pins[j], pins[..j], distance) {
      forall i, j | 0 <= i < j < |pins|
        ensures !DuplicatesPin(pins[j], pins[i], distance)
      {
        assert pins[..j][i] == pins[i];
        assert !IsDuplicate(pins[j], pins[..j], distance);
      }
    }
  }

  /** Registering a pin with an unused UUID that duplicates no earlier pin
      keeps the pin list deduplicated, its UUIDs distinct and all of them
      issued. */
  lemma RegisterPinKeepsInvariants(pins: seq<DroppedPin>, issued: set<Uuid>, p: DroppedPin, distance: DistanceFunction)
    requires DedupedPins(pins, distance) && DistinctIds(pins)
    requires forall k :: 0 <= k < |pins| ==> pins[k].id in issued
    requires p.id !in issued && !IsDuplicate(p, pins, distance)
    ensures DedupedPins(pins + [p], distance) && DistinctIds(pins + [p])
    ensures forall k :: 0 <= k < |pins + [p]| ==> (pins + [p])[k].id in issued + {p.id}
  {
    var e := pins + [p];
    forall i, j | 0 <= i < j < |e|
      ensures !DuplicatesPin(e[j], e[i], distance) && e[i].id != e[j].id
    {
      assert e[i] == pins[i];
      if j == |pins| {
        assert e[j] == p;
      } else {
        assert e[j] == pins[j];
      }
    }
  }

  /** In a deduplicated list, two pins with place identifiers have different
      ones, and a pin without one lies more than 20 m from every pin dropped
      before it. */
  lemma DedupedPinsFacts(pins: seq<DroppedPin>, distance: DistanceFunction, i: nat, j: nat)
    requires DedupedPins(pins, distance)
    requires i < j < |pins|
    ensures pins[j].placeID.Some? ==> pins[i].placeID != pins[j].placeID
    ensures pins[j].placeID.None? ==> distance(pins[i].coordinate, pins[j].coordinate) > PinDedupThresholdMeters
  {
    assert !DuplicatesPin(pins[j], pins[i], distance);
  }

  /** Pins with distinct UUIDs in a deduplicated list are pairwise unequal
      under the pin equality `==`. */
  lemma RegisteredPinsPairwiseUnequal(pins: seq<DroppedPin>, distance: DistanceFunction, i: nat, j: nat)
    requires DedupedPins(pins, distance) && DistinctIds(pins)
    requires i < j < |pins|
    ensures !SamePin(pins[i], pins[j])
  {
    DedupedPinsFacts(pins, distance, i, j);
  }

  class Registry {
    /** `CLLocation.distance(from:)`, fixed for the life of the screen. */
    const distance: DistanceFunction

    var droppedPins: seq<DroppedPin>
    var selectedFeatureCoordinate: Option<Coordinate>
    var lastSelectedPinID: Option<Uuid>
    var latestPinScaledID: Option<Uuid>
    /** `routePolyline != nil`. */
    var hasRoutePolyline: bool
    /** `routeETA`, in whole seconds. */
    var routeETA: Option<int>
    var routeDistance: Option<real>
    var isRouting: bool

    /** Every UUID handed out so far; a new pin's UUID is never among them. */
    ghost var issued: set<Uuid>

    ghost predicate Valid()
      reads this
    {
      && DedupedPins(droppedPins, distance)
      && DistinctIds(droppedPins)
      && (forall k :: 0 <= k < |droppedPins| ==> droppedPins[k].id in issued)
      && (latestPinScaledID.Some? ==> latestPinScaledID.value in issued)
      && (lastSelectedPinID.Some? ==> lastSelectedPinID.value in issued)
    }

    constructor(distance: DistanceFunction)
      ensures this.distance == distance
      ensures droppedPins == [] && selectedFeatureCoordinate == None
      ensures lastSelectedPinID == None && latestPinScaledID == None
      ensures !hasRoutePolyline && routeETA == None && routeDistance == None && !isRouting
      ensures issued == {}
      ensures Valid()
    {
      this.distance := distance;
      droppedPins := [];
      selectedFeatureCoordinate := None;
      lastSelectedPinID := None;
      latestPinScaledID := None;
      hasRoutePolyline := false;
      routeETA := None;
      routeDistance := None;
      isRouting := false;
      issued := {};
    }

    /** `lastSystemFeaturePin`: the last pin dropped from a system map
        feature, if any. */
    function LastSystemFeaturePin(): (r: Option<DroppedPin>)
      reads this
      ensures r.None? <==> forall k :: 0 <= k < |droppedPins| ==> droppedPins[k].source != SystemFeature
      ensures r.Some? ==> exists k :: 0 <= k < |droppedPins| && droppedPins[k] == r.value &&
                            r.value.source == SystemFeature &&
                            forall m :: k < m < |droppedPins| ==> droppedPins[m].source != SystemFeature
    {
      match LastIndexWhere(droppedPins, SystemFeature)
      case Some(k) => Some(droppedPins[k])
      case None => None
    }

    /** `handleNewMapItem`: the item's coordinate becomes the selected one in
        any case. A duplicate changes nothing else. Otherwise the new pin is
        appended, becomes both the selected and the enlarged pin, a reset of
        the enlarged pin is scheduled, and the route is cleared. */
    method HandleNewMapItem(item: MapItem, source: Source, freshId: Uuid) returns (timer: Option<ResetTimer>)
      requires Valid() && freshId !in issued
      modifies this
      ensures Valid()
      ensures issued == old(issued) + {freshId}
      ensures selectedFeatureCoordinate == Some(item.coordinate)
      ensures isRouting == old(isRouting)
      ensures var pin := MakeDroppedPin(item, source, freshId);
        if IsDuplicate(pin, old(droppedPins), distance) then
          && droppedPins == old(droppedPins)
          && lastSelectedPinID == old(lastSelectedPinID) && latestPinScaledID == old(latestPinScaledID)
          && hasRoutePolyline == old(hasRoutePolyline)
          && routeETA == old(routeETA) && routeDistance == old(routeDistance)
          && timer == None
        else
          && droppedPins == old(droppedPins) + [pin]
          && lastSelectedPinID == Some(freshId) && latestPinScaledID == Some(freshId)
          && !hasRoutePolyline && routeETA == None && routeDistance == None
          && timer == Some(ResetTimer(Some(freshId)))
    {
      selectedFeatureCoordinate := Some(item.coordinate);
      var newPin := MakeDroppedPin(item, source, freshId);
      if IsDuplicate(newPin, droppedPins, distance) {
        issued := issued + {freshId};
        timer := None;
      } else {
        var scheduled := DropPin(newPin);
        timer := Some(scheduled);
      }
    }

    /** The non-duplicate branch of `handleNewMapItem`: the pin is appended
        and becomes the selected and the enlarged pin, the route is cleared,
        and the reset of the enlarged pin is scheduled. */
    method DropPin(pin: DroppedPin) returns (timer: ResetTimer)
      requires Valid() && pin.id !in issued && !IsDuplicate(pin, droppedPins, distance)
      modifies this
      ensures Valid()
      ensures issued == old(issued) + {pin.id}
      ensures droppedPins == old(droppedPins) + [pin]
      ensures lastSelectedPinID == Some(pin.id) && latestPinScaledID == Some(pin.id)
      ensures !hasRoutePolyline && routeETA == None && routeDistance == None
      ensures timer == ResetTimer(Some(pin.id))
      ensures selectedFeatureCoordinate == old(selectedFeatureCoordinate) && isRouting == old(isRouting)
    {
      RegisterPinKeepsInvariants(droppedPins, issued, pin, distance);
      droppedPins := droppedPins + [pin];
      issued := issued + {pin.id};
      lastSelectedPinID := Some(pin.id);
      latestPinScaledID := Some(pin.id);
      timer := ResetTimer(latestPinScaledID);
      hasRoutePolyline := false;
      routeETA := None;
      routeDistance := None;
    }

    /** The delayed reset fires: the enlarged pin shrinks only if it is still
        the one the timer captured, so a timer from an earlier pin never
        shrinks a newer one. */
    method ResetTimerFired(timer: ResetTimer)
      requires Valid()
      modifies this
      ensures Valid()
      ensures timer.captured == old(latestPinScaledID) ==> latestPinScaledID == None
      ensures timer.captured != old(latestPinScaledID) ==> latestPinScaledID == old(latestPinScaledID)
      ensures droppedPins == old(droppedPins) && lastSelectedPinID == old(lastSelectedPinID)
      ensures selectedFeatureCoordinate == old(selectedFeatureCoordinate)
      ensures hasRoutePolyline == old(hasRoutePolyline) && routeETA == old(routeETA)
      ensures routeDistance == old(routeDistance) && isRouting == old(isRouting)
      ensures issued == old(issued)
    {
      if timer.captured == latestPinScaledID {
        latestPinScaledID := None;
      }
    }

    /** "Clear Pins": the pins, the selected coordinate and the route go; the
        ids of the last selected and the enlarged pin are kept. */
    method ClearPins()
      requires Valid()
      modifies this
      ensures Valid()
      ensures droppedPins == [] && selectedFeatureCoordinate == None
      ensures !hasRoutePolyline && routeETA == None && routeDistance == None && !isRouting
      ensures lastSelectedPinID == old(lastSelectedPinID) && latestPinScaledID == old(latestPinScaledID)
      ensures issued == old(issued)
    {
      droppedPins := [];
      selectedFeatureCoordinate := None;
      hasRoutePolyline := false;
      routeETA := None;
      routeDistance := None;
      isRouting := false;
    }

    /** The map selection is cleared (neither an item nor a feature). */
    method SelectionCleared()
      requires Valid()
      modifies this
      ensures Valid()
      ensures selectedFeatureCoordinate == None
      ensures droppedPins == old(droppedPins) && lastSelectedPinID == old(lastSelectedPinID)
      ensures latestPinScaledID == old(latestPinScaledID)
      ensures hasRoutePolyline == old(hasRoutePolyline) && routeETA == old(routeETA)
      ensures routeDistance == old(routeDistance) && isRouting == old(isRouting)
      ensures issued == old(issued)
    {
      selectedFeatureCoordinate := None;
    }
  }

  /** `lastIndex(where: { $0.source == source })`. */
  function LastIndexWhere(pins: seq<DroppedPin>, source: Source): (r: Option<nat>)
    ensures r.None? <==> forall k :: 0 <= k < |pins| ==> pins[k].source != source
    ensures r.Some? ==> r.value < |pins| && pins[r.value].source == source &&
                        forall m :: r.value < m < |pins| ==> pins[m].source != source
  {
    if pins == [] then None
    else if pins[|pins| - 1].source == source then Some(|pins| - 1)
    else LastIndexWhere(pins[..|pins| - 1], source)
  }

  /** An older timer never shrinks a newer pin: once a pin with a fresh UUID
      is the enlarged one, firing a timer captured earlier leaves it. */
  method NewerPinSurvivesOlderTimer(registry: Registry, older: ResetTimer, item: MapItem, source: Source, freshId: Uuid)
    requires registry.Valid() && freshId !in registry.issued
    requires older.captured.None? || older.captured.value in registry.issued
    modifies registry
    ensures registry.Valid()
    ensures !IsDuplicate(MakeDroppedPin(item, source, freshId), old(registry.droppedPins), registry.distance) ==>
              registry.latestPinScaledID == Some(freshId)
  {
    var timer := registry.HandleNewMapItem(item, source, freshId);
    registry.ResetTimerFired(older);
  }
}
