/** The `--size` and `--center` option parsers, `parse_size` and
    `parse_center`, which map_generator/step_1_land_grayscale_utm_map.py and
    map_generator/step_4_sea_grayscale_utm_map.py define identically.
    Python's `int()` and `float()` are passed in as partial parse functions;
    each `ValueError` they or the checks raise is a `Failure`. */
module CliArgs {
  import opened Wrappers
  import Text

  datatype ArgError =
    | WrongPartCount(found: nat)
    | NotAnInteger(part: string)
    | NotPositive
    | NotAFloat(part: string)
    | LongitudeOutOfRange(longitude: real)
    | LatitudeOutOfRange(latitude: real)

  /** `parse_size`: "width,height" as two positive integers. The check
      `not (0 < int(a)) or not (0 < int(b))` short-circuits, so the second
      part is not parsed when the first is not positive. */
  function ParseSize(size: string, parseInt: string -> Option<int>): (r: Result<(int, int), ArgError>)
    ensures |Text.Split(size, ',')| != 2 ==> r == Failure(WrongPartCount(|Text.Split(size, ',')|))
    ensures r.Success? <==>
      var parts := Text.Split(size, ',');
      && |parts| == 2
      && parseInt(parts[0]).Some? && parseInt(parts[0]).value > 0
      && parseInt(parts[1]).Some? && parseInt(parts[1]).value > 0
    ensures r.Success? ==>
      var parts := Text.Split(size, ',');
      && parseInt(parts[0]) == Some(r.value.0) && r.value.0 > 0
      && parseInt(parts[1]) == Some(r.value.1) && r.value.1 > 0
  {
    var parts := Text.Split(size, ',');
    if |parts| != 2 then Failure(WrongPartCount(|parts|))
    else
      match parseInt(parts[0])
      case None => Failure(NotAnInteger(parts[0]))
      case Some(width) =>
        if !(0 < width) then Failure(NotPositive)
        else
          match parseInt(parts[1])
          case None => Failure(NotAnInteger(parts[1]))
          case Some(height) =>
            if !(0 < height) then Failure(NotPositive) else Success((width, height))
  }

  /** `parse_center`: "longitude,latitude", longitude first, each strictly
      inside its range, so -180, 180, -90 and 90 are refused. */
  function ParseCenter(center: string, parseFloat: string -> Option<real>): (r: Result<(real, real), ArgError>)
    ensures |Text.Split(center, ',')| != 2 ==> r == Failure(WrongPartCount(|Text.Split(center, ',')|))
    ensures r.Success? <==>
      var parts := Text.Split(center, ',');
      && |parts| == 2
      && parseFloat(parts[0]).Some? && -180.0 < parseFloat(parts[0]).value < 180.0
      && parseFloat(parts[1]).Some? && -90.0 < parseFloat(parts[1]).value < 90.0
    ensures r.Success? ==>
      var parts := Text.Split(center, ',');
      parseFloat(parts[0]) == Some(r.value.0) && parseFloat(parts[1]) == Some(r.value.1)
  {
    var parts := Text.Split(center, ',');
    if |parts| != 2 then Failure(WrongPartCount(|parts|))
    else
      match parseFloat(parts[0])
      case None => Failure(NotAFloat(parts[0]))
      case Some(longitude) =>
        match parseFloat(parts[1])
        case None => Failure(NotAFloat(parts[1]))
        case Some(latitude) =>
          if !(-180.0 < longitude < 180.0) then Failure(LongitudeOutOfRange(longitude))
          else if !(-90.0 < latitude < 90.0) then Failure(LatitudeOutOfRange(latitude))
          else Success((longitude, latitude))
  }

  lemma SplitTwo(a: string, b: string)
    requires ',' !in a && ',' !in b
    ensures Text.Split(a + [','] + b, ',') == [a, b]
  {
    Text.SplitJoin([a, b], ',');
    assert Text.Join([a, b], ',') == a + [','] + Text.Join([b], ',');
  }

  /** Writing two positive integers in decimal around a comma and parsing
      the result gives them back, in order. */
  lemma ParseSizeRoundTrip(width: nat, height: nat, parseInt: string -> Option<int>)
    requires width > 0 && height > 0
    requires parseInt(Text.DecimalString(width)) == Some(width)
    requires parseInt(Text.DecimalString(height)) == Some(height)
    ensures ParseSize(Text.DecimalString(width) + "," + Text.DecimalString(height), parseInt)
         == Success((width, height))
  {
    var a, b := Text.DecimalString(width), Text.DecimalString(height);
    assert ',' !in a && ',' !in b;
    SplitTwo(a, b);
  }

  /** A second comma, or none, is refused before anything is parsed. */
  lemma ParseSizeNeedsOneComma(size: string, parseInt: string -> Option<int>)
    ensures Text.Occurrences(size, ',') != 1 ==>
      ParseSize(size, parseInt) == Failure(WrongPartCount(Text.Occurrences(size, ',') + 1))
  {
  }

  /** Parsing "longitude,latitude" written from two in-range values gives the
      pair back with longitude first. */
  lemma ParseCenterRoundTrip(lonText: string, latText: string, parseFloat: string -> Option<real>)
    requires ',' !in lonText && ',' !in latText
    requires parseFloat(lonText).Some? && -180.0 < parseFloat(lonText).value < 180.0
    requires parseFloat(latText).Some? && -90.0 < parseFloat(latText).value < 90.0
    ensures ParseCenter(lonText + "," + latText, parseFloat)
         == Success((parseFloat(lonText).value, parseFloat(latText).value))
  {
    SplitTwo(lonText, latText);
  }
}
