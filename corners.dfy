/** `get_geo_ref_points` and `get_geo_ref`: the four corners of a scene from its corner
    records, of which only the last upper-left record and the last other record count. */
module Corners {

  import opened Wrappers
  import opened PyValues

  /** The two raw coordinate attributes of one corner record. */
  datatype Corner = Corner(x: Value, y: Value)

  /** The corners found so far: the last `UL` record and the last record of any other location. */
  datatype Found = Found(ul: Option<Corner>, other: Option<Corner>)

  /** The location attribute of a record marks the upper-left corner. */
  predicate IsUpperLeft(location: Value)
  {
    location == Str("UL")
  }

  /** The coordinates of one record, the x attribute read before the y attribute. */
  function CornerOf(record: Value, xKey: string, yKey: string): Result<Corner, Error>
  {
    match Subscript(record, xKey)
    case Failure(err) => Failure(err)
    case Success(x) =>
      match Subscript(record, yKey)
      case Failure(err) => Failure(err)
      case Success(y) => Success(Corner(x, y))
  }

  /** The corners after the first n records. */
  function Scan(records: seq<Value>, n: nat, xKey: string, yKey: string): Result<Found, Error>
    requires n <= |records|
  {
    if n == 0 then Success(Found(None, None))
    else match Scan(records, n - 1, xKey, yKey)
      case Failure(err) => Failure(err)
      case Success(found) =>
        match Subscript(records[n - 1], "@location")
        case Failure(err) => Failure(err)
        case Success(location) =>
          match CornerOf(records[n - 1], xKey, yKey)
          case Failure(err) => Failure(err)
          case Success(c) =>
            if IsUpperLeft(location) then Success(found.(ul := Some(c)))
            else Success(found.(other := Some(c)))
  }

  /** The corner records listed under `listKey`. */
  function Records(info: Value, listKey: string): Result<seq<Value>, Error>
  {
    match Subscript(info, listKey)
    case Failure(err) => Failure(err)
    case Success(list) => Iterate(list)
  }

  /** The loop over the corner records, reassigning the upper-left and the other corner. */
  method ScanCorners(records: seq<Value>, xKey: string, yKey: string) returns (r: Result<Found, Error>)
    ensures r == Scan(records, |records|, xKey, yKey)
  {
    var ul: Option<Corner> := None;
    var other: Option<Corner> := None;
    var i := 0;
    while i < |records|
      invariant 0 <= i <= |records|
      invariant Scan(records, i, xKey, yKey) == Success(Found(ul, other))
    {
      var location := Subscript(records[i], "@location");
      if location.Failure? {
        ScanNoRecovery(records, i + 1, xKey, yKey, location.error);
        return Failure(location.error);
      }
      var x := Subscript(records[i], xKey);
      if x.Failure? {
        ScanNoRecovery(records, i + 1, xKey, yKey, x.error);
        return Failure(x.error);
      }
      var y := Subscript(records[i], yKey);
      if y.Failure? {
        ScanNoRecovery(records, i + 1, xKey, yKey, y.error);
        return Failure(y.error);
      }
      if location.value == Str("UL") {
        ul := Some(Corner(x.value, y.value));
      } else {
        other := Some(Corner(x.value, y.value));
      }
      i := i + 1;
    }
    r := Success(Found(ul, other));
  }

  lemma {:induction false} ScanNoRecovery(records: seq<Value>, n: nat, xKey: string, yKey: string, err: Error)
    requires n <= |records| && Scan(records, n, xKey, yKey) == Failure(err)
    ensures Scan(records, |records|, xKey, yKey) == Failure(err)
    decreases |records| - n
  {
    if n < |records| {
      ScanNoRecovery(records, n + 1, xKey, yKey, err);
    }
  }

  // ---------------------------------------------------------------------------
  // What the scan finds

  /** Record i has the location attribute and both coordinates. */
  predicate Readable(records: seq<Value>, i: nat, xKey: string, yKey: string)
    requires i < |records|
  {
    Subscript(records[i], "@location").Success? && CornerOf(records[i], xKey, yKey).Success?
  }

  /** Record i is an upper-left record. */
  predicate MarkedUpperLeft(records: seq<Value>, i: nat)
    requires i < |records|
  {
    Subscript(records[i], "@location").Success? && IsUpperLeft(Subscript(records[i], "@location").value)
  }

  /** One step of the scan: record n-1 is read and updates the upper-left corner or the
      other corner, as its location says. */
  lemma ScanStep(records: seq<Value>, n: nat, xKey: string, yKey: string)
    requires 0 < n <= |records|
    ensures Scan(records, n, xKey, yKey).Success? <==>
              Scan(records, n - 1, xKey, yKey).Success? && Readable(records, n - 1, xKey, yKey)
    ensures Scan(records, n, xKey, yKey).Success? ==>
              var before := Scan(records, n - 1, xKey, yKey).value;
              var c := CornerOf(records[n - 1], xKey, yKey).value;
              Scan(records, n, xKey, yKey).value
                == if MarkedUpperLeft(records, n - 1) then before.(ul := Some(c)) else before.(other := Some(c))
  {
  }

  /** The scan succeeds exactly when every record can be read. */
  lemma {:induction false} ScanSucceeds(records: seq<Value>, n: nat, xKey: string, yKey: string)
    requires n <= |records|
    ensures Scan(records, n, xKey, yKey).Success? <==> forall i :: 0 <= i < n ==> Readable(records, i, xKey, yKey)
  {
    if n > 0 {
      ScanSucceeds(records, n - 1, xKey, yKey);
      ScanStep(records, n, xKey, yKey);
      if Scan(records, n, xKey, yKey).Success? {
        forall i | 0 <= i < n ensures Readable(records, i, xKey, yKey) {
          if i < n - 1 {
            assert Readable(records, i, xKey, yKey);
          }
        }
      } else if Scan(records, n - 1, xKey, yKey).Failure? {
        var i :| 0 <= i < n - 1 && !Readable(records, i, xKey, yKey);
        assert i < n;
      } else {
        assert !Readable(records, n - 1, xKey, yKey);
      }
    }
  }

  /** There is no upper-left corner exactly when no record is upper-left. */
  lemma {:induction false} ScanUpperLeftAbsent(records: seq<Value>, n: nat, xKey: string, yKey: string)
    requires n <= |records| && Scan(records, n, xKey, yKey).Success?
    ensures Scan(records, n, xKey, yKey).value.ul.None? <==> forall i :: 0 <= i < n ==> !MarkedUpperLeft(records, i)
  {
    if n > 0 {
      ScanStep(records, n, xKey, yKey);
      ScanUpperLeftAbsent(records, n - 1, xKey, yKey);
      if !MarkedUpperLeft(records, n - 1) {
        assert (forall i :: 0 <= i < n ==> !MarkedUpperLeft(records, i))
           <==> (forall i :: 0 <= i < n - 1 ==> !MarkedUpperLeft(records, i));
      }
    }
  }

  /** The upper-left corner is the one of the last upper-left record. */
  lemma {:induction false} ScanUpperLeftIsLast(records: seq<Value>, n: nat, xKey: string, yKey: string, i: nat)
    requires i < n <= |records| && Scan(records, n, xKey, yKey).Success?
    requires MarkedUpperLeft(records, i) && forall j :: i < j < n ==> !MarkedUpperLeft(records, j)
    ensures CornerOf(records[i], xKey, yKey).Success?
    ensures Scan(records, n, xKey, yKey).value.ul == Some(CornerOf(records[i], xKey, yKey).value)
  {
    ScanStep(records, n, xKey, yKey);
    if i < n - 1 {
      ScanUpperLeftIsLast(records, n - 1, xKey, yKey, i);
    }
  }

  /** There is no other corner exactly when every record is upper-left. */
  lemma {:induction false} ScanOtherAbsent(records: seq<Value>, n: nat, xKey: string, yKey: string)
    requires n <= |records| && Scan(records, n, xKey, yKey).Success?
    ensures Scan(records, n, xKey, yKey).value.other.None? <==> forall i :: 0 <= i < n ==> MarkedUpperLeft(records, i)
  {
    if n > 0 {
      ScanStep(records, n, xKey, yKey);
      ScanOtherAbsent(records, n - 1, xKey, yKey);
      if MarkedUpperLeft(records, n - 1) {
        assert (forall i :: 0 <= i < n ==> MarkedUpperLeft(records, i))
           <==> (forall i :: 0 <= i < n - 1 ==> MarkedUpperLeft(records, i));
      }
    }
  }

  /** The other corner is the one of the last record that is not upper-left, whatever its
      location says. */
  lemma {:induction false} ScanOtherIsLast(records: seq<Value>, n: nat, xKey: string, yKey: string, i: nat)
    requires i < n <= |records| && Scan(records, n, xKey, yKey).Success?
    requires !MarkedUpperLeft(records, i) && forall j :: i < j < n ==> MarkedUpperLeft(records, j)
    ensures CornerOf(records[i], xKey, yKey).Success?
    ensures Scan(records, n, xKey, yKey).value.other == Some(CornerOf(records[i], xKey, yKey).value)
  {
    ScanStep(records, n, xKey, yKey);
    if i < n - 1 {
      ScanOtherIsLast(records, n - 1, xKey, yKey, i);
    }
  }

  // ---------------------------------------------------------------------------
  // Assembling the four corners

  /** A projected point and a geographic point. */
  datatype XY = XY(x: real, y: real)
  datatype LatLon = LatLon(lat: real, lon: real)

  /** The `{'ul', 'ur', 'll', 'lr'}` mapping. */
  datatype Box<P> = Box(ul: P, ur: P, ll: P, lr: P)

  /** `float(v)`: the string conversion is not modelled, so it is a parameter; it may fail. */
  type ToFloat = Value -> Result<real, Error>

  /** The projected corners: `ur` takes the right x and the upper y, `ll` the left x and the
      lower y. The first variable never assigned is reported when it is first read. */
  function PointsBox(found: Found, toFloat: ToFloat): Result<Box<XY>, Error>
  {
    if found.ul.None? then Failure(UnboundLocalError("ul_x"))
    else match toFloat(found.ul.value.x)
      case Failure(err) => Failure(err)
      case Success(ulx) =>
        match toFloat(found.ul.value.y)
        case Failure(err) => Failure(err)
        case Success(uly) =>
          if found.other.None? then Failure(UnboundLocalError("lr_x"))
          else match toFloat(found.other.value.x)
            case Failure(err) => Failure(err)
            case Success(lrx) =>
              match toFloat(found.other.value.y)
              case Failure(err) => Failure(err)
              case Success(lry) => Success(Box(XY(ulx, uly), XY(lrx, uly), XY(ulx, lry), XY(lrx, lry)))
  }

  /** `get_geo_ref_points(info)`. */
  function GeoRefPointsOf(info: Value, toFloat: ToFloat): Result<Box<XY>, Error>
  {
    match Records(info, "corner_point")
    case Failure(err) => Failure(err)
    case Success(records) =>
      match Scan(records, |records|, "@x", "@y")
      case Failure(err) => Failure(err)
      case Success(found) => PointsBox(found, toFloat)
  }

  /** The geographic corners as `get_geo_ref` assembles them: `ur` gets the lower latitude
      and the left longitude, `ll` the upper latitude and the right longitude. */
  function LatLonBoxAsWritten(found: Found, toFloat: ToFloat): Result<Box<LatLon>, Error>
  {
    if found.ul.None? then Failure(UnboundLocalError("ul_y"))
    else match toFloat(found.ul.value.y)
      case Failure(err) => Failure(err)
      case Success(ulLat) =>
        match toFloat(found.ul.value.x)
        case Failure(err) => Failure(err)
        case Success(ulLon) =>
          if found.other.None? then Failure(UnboundLocalError("lr_y"))
          else match toFloat(found.other.value.y)
            case Failure(err) => Failure(err)
            case Success(lrLat) =>
              match toFloat(found.other.value.x)
              case Failure(err) => Failure(err)
              case Success(lrLon) =>
                Success(Box(LatLon(ulLat, ulLon), LatLon(lrLat, ulLon), LatLon(ulLat, lrLon), LatLon(lrLat, lrLon)))
  }

  /** The geographic corners with `ur` and `ll` the right way round, the same assembly as
      the projected corners; read in that order, the first unassigned lower-right
      variable is the longitude. */
  function LatLonBox(found: Found, toFloat: ToFloat): Result<Box<LatLon>, Error>
  {
    if found.ul.None? then Failure(UnboundLocalError("ul_y"))
    else match toFloat(found.ul.value.y)
      case Failure(err) => Failure(err)
      case Success(ulLat) =>
        match toFloat(found.ul.value.x)
        case Failure(err) => Failure(err)
        case Success(ulLon) =>
          if found.other.None? then Failure(UnboundLocalError("lr_x"))
          else match toFloat(found.other.value.x)
            case Failure(err) => Failure(err)
            case Success(lrLon) =>
              match toFloat(found.other.value.y)
              case Failure(err) => Failure(err)
              case Success(lrLat) =>
                Success(Box(LatLon(ulLat, ulLon), LatLon(ulLat, lrLon), LatLon(lrLat, ulLon), LatLon(lrLat, lrLon)))
  }

  /** `get_geo_ref(info)` as written. */
  function GeoRefAsWrittenOf(info: Value, toFloat: ToFloat): Result<Box<LatLon>, Error>
  {
    match Records(info, "corner")
    case Failure(err) => Failure(err)
    case Success(records) =>
      match Scan(records, |records|, "@longitude", "@latitude")
      case Failure(err) => Failure(err)
      case Success(found) => LatLonBoxAsWritten(found, toFloat)
  }

  /** `get_geo_ref(info)` with the corners assembled as intended. */
  function GeoRefOf(info: Value, toFloat: ToFloat): Result<Box<LatLon>, Error>
  {
    match Records(info, "corner")
    case Failure(err) => Failure(err)
    case Success(records) =>
      match Scan(records, |records|, "@longitude", "@latitude")
      case Failure(err) => Failure(err)
      case Success(found) => LatLonBox(found, toFloat)
  }

  /** `get_geo_ref_points`: the record loop, then the assembly. */
  method GetGeoRefPoints(info: Value, toFloat: ToFloat) returns (r: Result<Box<XY>, Error>)
    ensures r == GeoRefPointsOf(info, toFloat)
  {
    var records := Records(info, "corner_point");
    if records.Failure? {
      return Failure(records.error);
    }
    var found := ScanCorners(records.value, "@x", "@y");
    if found.Failure? {
      return Failure(found.error);
    }
    r := PointsBox(found.value, toFloat);
  }

  /** `get_geo_ref`, corrected: the record loop, then the assembly. */
  method GetGeoRef(info: Value, toFloat: ToFloat) returns (r: Result<Box<LatLon>, Error>)
    ensures r == GeoRefOf(info, toFloat)
  {
    var records := Records(info, "corner");
    if records.Failure? {
      return Failure(records.error);
    }
    var found := ScanCorners(records.value, "@longitude", "@latitude");
    if found.Failure? {
      return Failure(found.error);
    }
    r := LatLonBox(found.value, toFloat);
  }

  // ---------------------------------------------------------------------------
  // The corners form a box

  /** The projected corners are the corners of an axis-aligned box spanned by the
      upper-left and lower-right points. */
  lemma PointsFormBox(found: Found, toFloat: ToFloat)
    requires PointsBox(found, toFloat).Success?
    ensures var b := PointsBox(found, toFloat).value;
            && found.ul.Some? && found.other.Some?
            && toFloat(found.ul.value.x) == Success(b.ul.x) && toFloat(found.ul.value.y) == Success(b.ul.y)
            && toFloat(found.other.value.x) == Success(b.lr.x) && toFloat(found.other.value.y) == Success(b.lr.y)
            && b.ur.y == b.ul.y && b.ur.x == b.lr.x
            && b.ll.x == b.ul.x && b.ll.y == b.lr.y
  {
  }

  /** The corrected geographic corners: the upper corners share the upper latitude, the
      right corners the right longitude, and so on. */
  lemma LatLonFormBox(found: Found, toFloat: ToFloat)
    requires LatLonBox(found, toFloat).Success?
    ensures var b := LatLonBox(found, toFloat).value;
            && found.ul.Some? && found.other.Some?
            && toFloat(found.ul.value.y) == Success(b.ul.lat) && toFloat(found.ul.value.x) == Success(b.ul.lon)
            && toFloat(found.other.value.y) == Success(b.lr.lat) && toFloat(found.other.value.x) == Success(b.lr.lon)
            && b.ur.lat == b.ul.lat && b.ur.lon == b.lr.lon
            && b.ll.lat == b.lr.lat && b.ll.lon == b.ul.lon
  {
  }

  /** The geographic corners are the projected assembly applied to longitude and latitude. */
  lemma LatLonMatchesPoints(found: Found, toFloat: ToFloat)
    requires LatLonBox(found, toFloat).Success?
    ensures PointsBox(found, toFloat).Success?
    ensures var b := LatLonBox(found, toFloat).value;
            var p := PointsBox(found, toFloat).value;
            && b.ul == LatLon(p.ul.y, p.ul.x) && b.ur == LatLon(p.ur.y, p.ur.x)
            && b.ll == LatLon(p.ll.y, p.ll.x) && b.lr == LatLon(p.lr.y, p.lr.x)
  {
  }

  /** As written, `get_geo_ref` swaps the upper-right and lower-left corners of the box. */
  lemma AsWrittenSwapsCorners(found: Found, toFloat: ToFloat)
    requires LatLonBoxAsWritten(found, toFloat).Success? && LatLonBox(found, toFloat).Success?
    ensures var w := LatLonBoxAsWritten(found, toFloat).value;
            var b := LatLonBox(found, toFloat).value;
            && w.ul == b.ul && w.lr == b.lr
            && w.ur == b.ll && w.ll == b.ur
  {
  }

  /** A scene with upper-left corner at latitude 10, longitude 0 and lower-right corner at
      latitude 0, longitude 10: as written, its upper-right corner is (0, 0), the
      lower-left corner of the scene, and not the (10, 10) the box has. */
  lemma AsWrittenUpperRightIsLowerLeft()
    ensures var toFloat: ToFloat := v => if v == Str("10") then Success(10.0) else Success(0.0);
            var found := Found(Some(Corner(Str("0"), Str("10"))), Some(Corner(Str("10"), Str("0"))));
            && LatLonBoxAsWritten(found, toFloat).Success?
            && LatLonBoxAsWritten(found, toFloat).value.ur == LatLon(0.0, 0.0)
            && LatLonBox(found, toFloat).value.ur == LatLon(10.0, 10.0)
            && LatLonBoxAsWritten(found, toFloat).value.ur.lat != LatLonBoxAsWritten(found, toFloat).value.ul.lat
  {
  }

  // ---------------------------------------------------------------------------
  // Missing corners

  /** Without an upper-left record the first read of an upper-left variable fails. */
  lemma MissingUpperLeft(found: Found, toFloat: ToFloat)
    requires found.ul.None?
    ensures PointsBox(found, toFloat) == Failure(UnboundLocalError("ul_x"))
    ensures LatLonBoxAsWritten(found, toFloat) == Failure(UnboundLocalError("ul_y"))
    ensures LatLonBox(found, toFloat) == Failure(UnboundLocalError("ul_y"))
  {
  }

  /** With only upper-left records, the upper-left values are converted first, then the
      first read of a lower-right variable fails. */
  lemma MissingOther(found: Found, toFloat: ToFloat)
    requires found.ul.Some? && found.other.None?
    requires toFloat(found.ul.value.x).Success? && toFloat(found.ul.value.y).Success?
    ensures PointsBox(found, toFloat) == Failure(UnboundLocalError("lr_x"))
    ensures LatLonBoxAsWritten(found, toFloat) == Failure(UnboundLocalError("lr_y"))
    ensures LatLonBox(found, toFloat) == Failure(UnboundLocalError("lr_x"))
  {
  }

  /** Whole functions: with every record readable, the projected corners come from the last
      upper-left record and the last other record, and none is found when the list has
      no upper-left record. */
  lemma GeoRefPointsUseLastRecords(info: Value, toFloat: ToFloat)
    requires Records(info, "corner_point").Success?
    requires var records := Records(info, "corner_point").value;
             forall i :: 0 <= i < |records| ==> Readable(records, i, "@x", "@y")
    ensures var records := Records(info, "corner_point").value;
            var found := Scan(records, |records|, "@x", "@y");
            && found.Success?
            && GeoRefPointsOf(info, toFloat) == PointsBox(found.value, toFloat)
            && ((forall i :: 0 <= i < |records| ==> !MarkedUpperLeft(records, i)) ==>
                  GeoRefPointsOf(info, toFloat) == Failure(UnboundLocalError("ul_x")))
  {
    var records := Records(info, "corner_point").value;
    ScanSucceeds(records, |records|, "@x", "@y");
    ScanUpperLeftAbsent(records, |records|, "@x", "@y");
  }
}
