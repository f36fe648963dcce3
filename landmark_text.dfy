/**
 * Small text helpers of the landmark screen: the "Name, CC" form of a place
 * name, the first sentence of a generated description, the ETA label of a
 * route, and the place-identifier comparison of two landmarks.
 */
module LandmarkText {
  import opened Wrappers
  import opened TextUtil

  /** The country part of a region identifier: the trimmed identifier up to
      its first '-', or `None` when there is no region or the identifier is
      blank. */
  function CountryCode(region: Option<string>): (cc: Option<string>)
    ensures cc.None? <==> region.None? || Trim(region.value) == []
    ensures cc.Some? ==> HasPrefix(Trim(region.value), cc.value) && '-' !in cc.value
    ensures cc.Some? && |cc.value| < |Trim(region.value)| ==> Trim(region.value)[|cc.value|] == '-'
  {
    match region
    case None => None
    case Some(identifier) =>
      var id := Trim(identifier);
      if id == [] then None
      else
        match FirstIndexOf(id, '-')
        case Some(dash) => Some(id[..dash])
        case None => Some(id)
  }

  /** `standardizedName`: the trimmed base name, followed by ", " and the
      country code when there is a non-empty one; "" for a blank base. */
  function StandardizedName(baseName: string, region: Option<string>): (r: string)
    ensures Trim(baseName) == [] ==> r == []
    ensures Trim(baseName) != [] ==>
      var cc := CountryCode(region);
      if cc.Some? && cc.value != [] then r == Trim(baseName) + ", " + cc.value else r == Trim(baseName)
  {
    var trimmedBase := Trim(baseName);
    if trimmedBase == [] then []
    else
      match CountryCode(region)
      case Some(cc) => if cc != [] then trimmedBase + ", " + cc else trimmedBase
      case None => trimmedBase
  }

  /** A subdivision suffix is dropped: "US-CA" gives "US". */
  lemma CountryCodeSubdivisionExample()
    ensures CountryCode(Some("US-CA")) == Some("US")
  {
    TrimKeepsUntrimmed("US-CA");
    assert FirstIndexOf("US-CA", '-') == Some(2) by {
      assert "US-CA"[2] == '-' && '-' !in "US-CA"[..2];
    }
    assert "US-CA"[..2] == "US";
  }

  lemma StandardizedNameSubdivisionExample()
    ensures StandardizedName("Golden Gate Bridge", Some("US-CA")) == "Golden Gate Bridge, US"
  {
    TrimKeepsUntrimmed("Golden Gate Bridge");
    CountryCodeSubdivisionExample();
  }

  /** An identifier that starts with '-' leaves an empty code, and the name
      stays bare. */
  lemma StandardizedNameEmptyCodeExample()
    ensures StandardizedName("Uluru", Some("-NT")) == "Uluru"
  {
    TrimKeepsUntrimmed("Uluru");
    TrimKeepsUntrimmed("-NT");
    assert FirstIndexOf("-NT", '-') == Some(0);
  }

  /** The short description: the trimmed text up to and including its
      first '.', trimmed again, or the whole trimmed text when it has no
      '.'. */
  function ShortDescription(generated: string): (r: string)
    ensures '.' !in Trim(generated) ==> r == Trim(generated)
    ensures '.' in Trim(generated) ==>
      && HasPrefix(Trim(generated), r)
      && |r| > 0 && r[|r| - 1] == '.' && '.' !in r[..|r| - 1]
  {
    var full := Trim(generated);
    match FirstIndexOf(full, '.')
    case Some(dot) =>
      var sentence := full[..dot + 1];
      TrimKeepsUntrimmed(sentence);
      assert sentence[..dot] == full[..dot];
      Trim(sentence)
    case None => full
  }

  /** Taking the first sentence twice is taking it once. */
  lemma ShortDescriptionIdempotent(generated: string)
    ensures ShortDescription(ShortDescription(generated)) == ShortDescription(generated)
  {
    var full := Trim(generated);
    var r := ShortDescription(generated);
    if '.' in full {
      TrimKeepsUntrimmed(r);
      assert r == r[..|r| - 1] + ['.'];
      assert FirstIndexOf(r, '.') == Some(|r| - 1);
    } else {
      TrimIdempotent(generated);
    }
  }

  /** Swift's `Int` division and remainder, which truncate toward zero. */
  function TruncDiv(a: int, b: int): int
    requires b > 0
  {
    if a >= 0 then a / b else -((-a) / b)
  }

  function TruncRem(a: int, b: int): (r: int)
    requires b > 0
    ensures a == TruncDiv(a, b) * b + r
    ensures a >= 0 ==> 0 <= r < b
    ensures a < 0 ==> -b < r <= 0
  {
    if a >= 0 then a % b else -((-a) % b)
  }

  /** The hours and minutes `formattedETA` shows for a route of `seconds`
      seconds (whole seconds; `Int(seconds / 60)` truncates). */
  function EtaParts(seconds: int): (hm: (int, int))
    ensures seconds >= 0 ==>
      && hm.0 >= 0 && 0 <= hm.1 < 60
      && hm.0 * 3600 + hm.1 * 60 <= seconds < hm.0 * 3600 + hm.1 * 60 + 60
    ensures seconds < 0 ==> hm.0 <= 0
  {
    var totalMinutes := TruncDiv(seconds, 60);
    (TruncDiv(totalMinutes, 60), TruncRem(totalMinutes, 60))
  }

  /** `formattedETA`: "ETA h hr m min", or "ETA m min" under an hour. */
  function FormattedEta(seconds: int): (r: string)
    ensures seconds >= 3600 ==>
      r == "ETA " + NatToString(seconds / 3600) + " hr " + NatToString(seconds / 60 % 60) + " min"
    ensures 0 <= seconds < 3600 ==> r == "ETA " + NatToString(seconds / 60) + " min"
    ensures seconds < 0 ==> r == "ETA " + IntToString(EtaParts(seconds).1) + " min"
  {
    var (hours, minutes) := EtaParts(seconds);
    if hours > 0 then "ETA " + IntToString(hours) + " hr " + IntToString(minutes) + " min"
    else "ETA " + IntToString(minutes) + " min"
  }

  /** `isSameLandmarkByPlaceID`, on the two landmarks' place identifiers:
      both present, non-empty and equal. */
  function IsSameLandmarkByPlaceID(a: Option<string>, b: Option<string>): (r: bool)
    ensures r <==> a.Some? && a.value != [] && a == b
  {
    match (a, b)
    case (Some(pa), Some(pb)) => pa != [] && pb != [] && pa == pb
    case _ => false
  }

  /** The comparison is symmetric, and a landmark without a usable
      identifier matches nothing, not even itself. */
  lemma IsSameLandmarkByPlaceIDFacts(a: Option<string>, b: Option<string>)
    ensures IsSameLandmarkByPlaceID(a, b) == IsSameLandmarkByPlaceID(b, a)
    ensures a.None? || a == Some([]) ==> !IsSameLandmarkByPlaceID(a, a)
  {
  }
}
