/** `get_images`: the band records of the converted metadata, re-keyed for the index,
    stored under the datacube band name the alias table gives, with a layer and a path
    to the band's file. */
module BandImages {

  import opened Wrappers
  import opened Strings
  import opened PyValues
  import opened Paths
  import opened BandRecords

  // ---------------------------------------------------------------------------
  // The alias table

  /** Band names of the Thematic Mapper and ETM+ products (LT04, LT05 and LE07 carry
      the same table). */
  const TmAliases: map<string, string> := map[
    "pixel_qa" := "quality",
    "solar_zenith_band4" := "solar_zenith_band4",
    "solar_azimuth_band4" := "solar_azimuth_band4",
    "sensor_zenith_band4" := "sensor_zenith_band4",
    "sensor_azimuth_band4" := "sensor_azimuth_band4",
    "radsat_qa" := "radsat_qa",
    "bt_band6" := "lwir1",
    "sr_band1" := "blue",
    "sr_band2" := "green",
    "sr_band3" := "red",
    "sr_band4" := "nir",
    "sr_band5" := "swir1",
    "sr_band7" := "swir2",
    "sr_atmos_opacity" := "sr_atmos_opacity",
    "sr_cloud_qa" := "sr_cloud_qa"
  ]

  /** Band names of the OLI/TIRS products (LC08). */
  const OliAliases: map<string, string> := map[
    "pixel_qa" := "quality",
    "solar_zenith_band4" := "solar_zenith_band4",
    "solar_azimuth_band4" := "solar_azimuth_band4",
    "sensor_zenith_band4" := "sensor_zenith_band4",
    "sensor_azimuth_band4" := "sensor_azimuth_band4",
    "radsat_qa" := "radsat_qa",
    "bt_band10" := "lwir1",
    "bt_band11" := "lwir2",
    "sr_band1" := "coastal_aerosol",
    "sr_band2" := "blue",
    "sr_band3" := "green",
    "sr_band4" := "red",
    "sr_band5" := "nir",
    "sr_band6" := "swir1",
    "sr_band7" := "swir2",
    "sr_aerosol" := "sr_aerosol"
  ]

  /** `BAND_ALIASES`: satellite prefix, then product band name, to datacube band name. */
  const BandAliases: map<string, map<string, string>> :=
    map["LT04" := TmAliases, "LT05" := TmAliases, "LE07" := TmAliases, "LC08" := OliAliases]

  // ---------------------------------------------------------------------------
  // Path, alias and the whole band

  /** The `layer` and `path` recorded for a band in `images_band`. */
  datatype BandRef = BandRef(layer: int, path: string)

  /** Where the band's file is: inside the archive for a `.gz` dataset, next to the
      metadata otherwise. */
  function BandPath(dsPath: string, info: Entries<Value>): Result<string, Error>
  {
    match Get(info, "file_name")
    case None => Failure(KeyError("file_name"))
    case Some(f) =>
      if Suffix(dsPath) != ".gz" then
        (if f.Str? then Success(Join(PathStr(dsPath), f.s))
         else Failure(TypeError("join() argument must be str, bytes, or os.PathLike object, not '" + TypeName(f) + "'")))
      else
        (match f
         case Str(s) => Success(TarRef(dsPath, s))
         case Null => Success(TarRef(dsPath, "None"))
         case _ => Failure(TypeError("a '" + TypeName(f) + "' formatted into a path is not modelled")))
  }

  /** `BAND_ALIASES[sat][band['@name']]`. */
  function Alias(sat: string, band: Value): Result<string, Error>
  {
    if sat !in BandAliases then Failure(KeyError(sat))
    else match Subscript(band, "@name")
      case Failure(err) => Failure(err)
      case Success(name) =>
        match name
        case Str(s) => if s in BandAliases[sat] then Success(BandAliases[sat][s]) else Failure(KeyError(s))
        case Null => Failure(KeyError("None"))
        case _ => Failure(TypeError("unhashable type: '" + TypeName(name) + "'"))
  }

  /** One band as `get_images` stores it: its datacube name, its `image_info` and its
      `image_band_info`. */
  datatype Image = Image(alias: string, info: Entries<Value>, ref: BandRef)

  function BandImage(sat: string, dsPath: string, band: Value): Result<Image, Error>
  {
    match Items(band)
    case Failure(err) => Failure(err)
    case Success(entries) =>
      match ImageInfo(entries)
      case Failure(err) => Failure(err)
      case Success(info) =>
        match BandPath(dsPath, info)
        case Failure(err) => Failure(err)
        case Success(path) =>
          match Alias(sat, band)
          case Failure(err) => Failure(err)
          case Success(alias) => Success(Image(alias, Pop(info, "file_name"), BandRef(1, path)))
  }

  /** The three results of `get_images`: the surface-reflectance paths, `images` and
      `images_band`. */
  datatype Images = Images(srPaths: seq<string>, images: Entries<Value>, refs: Entries<BandRef>)

  /** A path the valid-region computation uses. */
  predicate IsSrPath(path: string)
  {
    Contains(path, "sr_band")
  }

  /** Every band converted, in band order. */
  function Conversions(sat: string, dsPath: string, bands: seq<Value>): (conv: seq<Result<Image, Error>>)
    ensures |conv| == |bands|
    ensures forall i :: 0 <= i < |bands| ==> conv[i] == BandImage(sat, dsPath, bands[i])
  {
    seq(|bands|, i requires 0 <= i < |bands| => BandImage(sat, dsPath, bands[i]))
  }

  /** The results after the first n bands, given what each band converts to; the first
      failure aborts. */
  function Collect(conv: seq<Result<Image, Error>>, n: nat): Result<Images, Error>
    requires n <= |conv|
  {
    if n == 0 then Success(Images([], [], []))
    else match Collect(conv, n - 1)
      case Failure(err) => Failure(err)
      case Success(acc) =>
        match conv[n - 1]
        case Failure(err) => Failure(err)
        case Success(img) =>
          Success(Images(
            if IsSrPath(img.ref.path) then acc.srPaths + [img.ref.path] else acc.srPaths,
            Put(acc.images, img.alias, Dict(img.info)),
            Put(acc.refs, img.alias, img.ref)))
  }

  /** The satellite prefix: the first four characters of the dataset's base name. */
  function Satellite(dsPath: string): (sat: string)
    ensures |sat| <= 4 && |sat| <= |Basename(dsPath)|
    ensures sat == Basename(dsPath)[..|sat|]
    ensures |sat| < 4 ==> sat == Basename(dsPath)
  {
    var b := Basename(dsPath);
    if |b| <= 4 then b else b[..4]
  }

  /** The band records `bands_info['band']` iterates over. */
  function BandList(bandsInfo: Value): Result<seq<Value>, Error>
  {
    match Subscript(bandsInfo, "band")
    case Failure(err) => Failure(err)
    case Success(list) => Iterate(list)
  }

  /** What `get_images(bands_info, ds_path)` returns or raises. */
  function GetImagesOf(bandsInfo: Value, dsPath: string): Result<Images, Error>
  {
    match BandList(bandsInfo)
    case Failure(err) => Failure(err)
    case Success(bands) => Collect(Conversions(Satellite(dsPath), dsPath, bands), |bands|)
  }

  // ---------------------------------------------------------------------------
  // The loops

  /** The body of the band loop: the record's `image_info`, then the path, the removal of
      `file_name`, and the alias lookup. */
  method BandImageOf(sat: string, dsPath: string, band: Value) returns (r: Result<Image, Error>)
    ensures r == BandImage(sat, dsPath, band)
  {
    var items := Items(band);
    if items.Failure? {
      return Failure(items.error);
    }
    var record := RecordInfo(items.value);
    if record.Failure? {
      return Failure(record.error);
    }
    var info := record.value;
    var path := BandPath(dsPath, info);
    if path.Failure? {
      return Failure(path.error);
    }
    var ref := BandRef(1, path.value);
    info := Pop(info, "file_name");
    var alias := Alias(sat, band);
    if alias.Failure? {
      return Failure(alias.error);
    }
    r := Success(Image(alias.value, info, ref));
  }

  lemma {:induction false} CollectNoRecovery(conv: seq<Result<Image, Error>>, n: nat, err: Error)
    requires n <= |conv| && Collect(conv, n) == Failure(err)
    ensures Collect(conv, |conv|) == Failure(err)
    decreases |conv| - n
  {
    if n < |conv| {
      CollectNoRecovery(conv, n + 1, err);
    }
  }

  /** `get_images`: fills `images`, `images_band` and `images_list` band by band. */
  method GetImages(bandsInfo: Value, dsPath: string) returns (r: Result<Images, Error>)
    ensures r == GetImagesOf(bandsInfo, dsPath)
  {
    var sat := Satellite(dsPath);
    var images: Entries<Value> := [];
    var imagesBand: Entries<BandRef> := [];
    var imagesList: seq<string> := [];
    var bandsList := BandList(bandsInfo);
    if bandsList.Failure? {
      return Failure(bandsList.error);
    }
    var bands := bandsList.value;
    ghost var conv := Conversions(sat, dsPath, bands);
    var i := 0;
    while i < |bands|
      invariant 0 <= i <= |bands|
      invariant Collect(conv, i) == Success(Images(imagesList, images, imagesBand))
    {
      var img := BandImageOf(sat, dsPath, bands[i]);
      if img.Failure? {
        CollectNoRecovery(conv, i + 1, img.error);
        return Failure(img.error);
      }
      imagesBand := Put(imagesBand, img.value.alias, img.value.ref);
      images := Put(images, img.value.alias, Dict(img.value.info));
      if IsSrPath(img.value.ref.path) {
        imagesList := imagesList + [img.value.ref.path];
      }
      i := i + 1;
    }
    r := Success(Images(imagesList, images, imagesBand));
  }

  // ---------------------------------------------------------------------------
  // What a band record becomes

  /** Every field of a stored band other than `file_name` is in its `image_info`, under
      its renamed key and converted; `file_name` itself is gone, and the layer is 1. */
  lemma BandImageContents(sat: string, dsPath: string, band: Value, i: nat)
    requires BandImage(sat, dsPath, band).Success?
    requires band.Dict? && i < |band.entries|
    requires forall j :: i < j < |band.entries| ==> FieldName(band.entries[j].0) != FieldName(band.entries[i].0)
    ensures var img := BandImage(sat, dsPath, band).value;
            var name := FieldName(band.entries[i].0);
            && img.ref.layer == 1
            && "file_name" !in Keys(img.info)
            && DistinctKeys(img.info)
            && FieldValue(band.entries[i].0, band.entries[i].1).Success?
            && (name != "file_name" ==>
                  Get(img.info, name) == Some(FieldValue(band.entries[i].0, band.entries[i].1).value))
  {
    var entries := band.entries;
    ImageInfoKeys(entries);
    ImageInfoGet(entries, i);
    var info := ImageInfo(entries).value;
    assert BandImage(sat, dsPath, band).value.info == Pop(info, "file_name");
    PopShape(info, "file_name", FieldName(entries[i].0));
  }

  /** Inside a gzipped dataset the path is a `tar:` reference that separates again into
      the dataset path and the file name. */
  lemma TarPathSeparates(dsPath: string, info: Entries<Value>, file: string)
    requires Suffix(dsPath) == ".gz" && Get(info, "file_name") == Some(Str(file)) && '!' !in file
    ensures BandPath(dsPath, info).Success?
    ensures var path := BandPath(dsPath, info).value;
            var bang := RFindChar(path, '!');
            && path[..4] == "tar:"
            && 4 <= bang
            && path[4..bang] == dsPath && path[bang + 1..] == file
  {
    assert BandPath(dsPath, info) == Success(TarRef(dsPath, file));
    TarRefRoundTrip(dsPath, file);
  }

  /** Outside an archive the path is the file name joined to the normalised dataset path,
      and a plain file name is its final component. */
  lemma JoinedPathEndsInFile(dsPath: string, info: Entries<Value>, file: string)
    requires Suffix(dsPath) != ".gz" && Get(info, "file_name") == Some(Str(file))
    requires file != "" && '/' !in file
    ensures BandPath(dsPath, info).Success?
    ensures Basename(BandPath(dsPath, info).value) == file
    ensures |PathStr(dsPath)| <= |BandPath(dsPath, info).value|
            && BandPath(dsPath, info).value[..|PathStr(dsPath)|] == PathStr(dsPath)
  {
    JoinRelativeExtends(PathStr(dsPath), file);
    JoinBasename(PathStr(dsPath), file);
  }

  /** Outside an archive a file name that is not a string cannot be joined. */
  lemma JoinNeedsString(dsPath: string, info: Entries<Value>)
    requires Suffix(dsPath) != ".gz" && Get(info, "file_name").Some? && !Get(info, "file_name").value.Str?
    ensures BandPath(dsPath, info).Failure? && BandPath(dsPath, info).error.TypeError?
  {
  }

  /** A band record without `file_name` fails on it before the alias table is consulted,
      so even for an unknown satellite the error is the missing file name. */
  lemma MissingFileNameFirst(sat: string, dsPath: string, band: Value)
    requires band.Dict? && ImageInfo(band.entries).Success?
    requires "file_name" !in Keys(ImageInfo(band.entries).value)
    ensures BandImage(sat, dsPath, band) == Failure(KeyError("file_name"))
  {
    GetKeys(ImageInfo(band.entries).value, "file_name");
  }

  // ---------------------------------------------------------------------------
  // The alias table

  lemma TmAliasesInjective(a: string, b: string)
    requires a in TmAliases && b in TmAliases && TmAliases[a] == TmAliases[b]
    ensures a == b
  {
  }

  lemma OliAliasesInjective(a: string, b: string)
    requires a in OliAliases && b in OliAliases && OliAliases[a] == OliAliases[b]
    ensures a == b
  {
  }

  /** No two band names of one satellite share a datacube name. */
  lemma AliasesInjective(sat: string, a: string, b: string)
    requires sat in BandAliases && a in BandAliases[sat] && b in BandAliases[sat]
    requires BandAliases[sat][a] == BandAliases[sat][b]
    ensures a == b
  {
    if sat == "LC08" {
      assert BandAliases[sat] == OliAliases;
      OliAliasesInjective(a, b);
    } else {
      assert BandAliases[sat] == TmAliases;
      TmAliasesInjective(a, b);
    }
  }

  // ---------------------------------------------------------------------------
  // What the band loop collects

  /** The paths that contain "sr_band", keeping their order. */
  function SrOnly(paths: seq<string>): (sr: seq<string>)
    ensures |sr| <= |paths|
    ensures forall p :: p in sr <==> p in paths && IsSrPath(p)
  {
    if paths == [] then []
    else
      var last := paths[|paths| - 1];
      var front := paths[..|paths| - 1];
      assert forall p :: p in paths <==> p in front || p == last;
      SrOnly(front) + (if IsSrPath(last) then [last] else [])
  }

  /** Each of the first n bands converts. */
  predicate AllConvert(conv: seq<Result<Image, Error>>, n: nat)
    requires n <= |conv|
  {
    forall i :: 0 <= i < n ==> conv[i].Success?
  }

  /** The paths of the first n bands, in band order. */
  function PathsOf(conv: seq<Result<Image, Error>>, n: nat): (paths: seq<string>)
    requires n <= |conv| && AllConvert(conv, n)
    ensures |paths| == n
    ensures forall i :: 0 <= i < n ==> paths[i] == conv[i].value.ref.path
  {
    seq(n, i requires 0 <= i < n => conv[i].value.ref.path)
  }

  /** The band loop succeeds exactly when every band converts. */
  lemma {:induction false} CollectSucceeds(conv: seq<Result<Image, Error>>, n: nat)
    requires n <= |conv|
    ensures Collect(conv, n).Success? <==> AllConvert(conv, n)
  {
    if n > 0 {
      CollectSucceeds(conv, n - 1);
    }
  }

  /** `images_list` holds exactly the band paths that contain "sr_band", in band order. */
  lemma {:induction false} CollectSrPaths(conv: seq<Result<Image, Error>>, n: nat)
    requires n <= |conv| && Collect(conv, n).Success?
    ensures AllConvert(conv, n)
    ensures Collect(conv, n).value.srPaths == SrOnly(PathsOf(conv, n))
  {
    CollectSucceeds(conv, n);
    if n > 0 {
      CollectSrPaths(conv, n - 1);
      assert PathsOf(conv, n)[..n - 1] == PathsOf(conv, n - 1);
    }
  }

  /** No later band of the first n is stored under the same datacube name as band i. */
  predicate LastAliased(conv: seq<Result<Image, Error>>, n: nat, i: nat)
    requires i < n <= |conv| && AllConvert(conv, n)
  {
    forall j :: i < j < n ==> conv[j].value.alias != conv[i].value.alias
  }

  /** `images` and `images_band` have the same keys, the datacube names of the bands, once
      each, and every band reference has layer 1. */
  lemma {:induction false} CollectKeys(conv: seq<Result<Image, Error>>, n: nat)
    requires n <= |conv| && Collect(conv, n).Success?
    requires forall i :: 0 <= i < n && conv[i].Success? ==> conv[i].value.ref.layer == 1
    ensures AllConvert(conv, n)
    ensures var res := Collect(conv, n).value;
            && DistinctKeys(res.images) && DistinctKeys(res.refs)
            && Keys(res.images) == Keys(res.refs)
            && Keys(res.refs) == (set i | 0 <= i < n :: conv[i].value.alias)
            && forall k :: 0 <= k < |res.refs| ==> res.refs[k].1.layer == 1
  {
    CollectSucceeds(conv, n);
    if n > 0 {
      CollectKeys(conv, n - 1);
      var acc := Collect(conv, n - 1).value;
      var img := conv[n - 1].value;
      PutShape(acc.images, img.alias, Dict(img.info));
      PutShape(acc.refs, img.alias, img.ref);
      PutLayers(acc.refs, img.alias, img.ref);
      assert (set i | 0 <= i < n :: conv[i].value.alias)
          == (set i | 0 <= i < n - 1 :: conv[i].value.alias) + {img.alias};
    }
  }

  lemma {:induction false} PutLayers(refs: Entries<BandRef>, alias: string, ref: BandRef)
    requires forall k :: 0 <= k < |refs| ==> refs[k].1.layer == 1
    requires ref.layer == 1
    ensures forall k :: 0 <= k < |Put(refs, alias, ref)| ==> Put(refs, alias, ref)[k].1.layer == 1
    decreases |refs|
  {
    if refs != [] && refs[0].0 != alias {
      PutLayers(refs[1..], alias, ref);
      assert Put(refs, alias, ref) == [refs[0]] + Put(refs[1..], alias, ref);
    }
  }

  /** The last band stored under a datacube name is the one both results hold for it. */
  lemma {:induction false} CollectGet(conv: seq<Result<Image, Error>>, n: nat, i: nat)
    requires i < n <= |conv| && Collect(conv, n).Success?
    ensures AllConvert(conv, n)
    ensures LastAliased(conv, n, i) ==>
              && Get(Collect(conv, n).value.refs, conv[i].value.alias) == Some(conv[i].value.ref)
              && Get(Collect(conv, n).value.images, conv[i].value.alias) == Some(Dict(conv[i].value.info))
  {
    CollectSucceeds(conv, n);
    if LastAliased(conv, n, i) {
      var acc := Collect(conv, n - 1).value;
      var last := conv[n - 1].value;
      var img := conv[i].value;
      GetPut(acc.refs, last.alias, last.ref, img.alias);
      GetPut(acc.images, last.alias, Dict(last.info), img.alias);
      if i < n - 1 {
        assert LastAliased(conv, n - 1, i);
        CollectGet(conv, n - 1, i);
      }
    }
  }

  // ---------------------------------------------------------------------------
  // get_images as a whole

  /** A converted band is stored under the alias of its `@name`, with layer 1. */
  lemma BandImageAlias(sat: string, dsPath: string, band: Value)
    requires BandImage(sat, dsPath, band).Success?
    ensures var img := BandImage(sat, dsPath, band).value;
            && img.ref.layer == 1
            && sat in BandAliases
            && Subscript(band, "@name").Success? && Subscript(band, "@name").value.Str?
            && Subscript(band, "@name").value.s in BandAliases[sat]
            && img.alias == BandAliases[sat][Subscript(band, "@name").value.s]
  {
  }

  /** What a successful `get_images` returns: the surface-reflectance paths in band order,
      and two mappings keyed by the bands' datacube names, with layer 1 throughout. */
  lemma GetImagesResults(bandsInfo: Value, dsPath: string)
    requires GetImagesOf(bandsInfo, dsPath).Success?
    ensures BandList(bandsInfo).Success?
    ensures var conv := Conversions(Satellite(dsPath), dsPath, BandList(bandsInfo).value);
            var res := GetImagesOf(bandsInfo, dsPath).value;
            && AllConvert(conv, |conv|)
            && res.srPaths == SrOnly(PathsOf(conv, |conv|))
            && DistinctKeys(res.images) && DistinctKeys(res.refs)
            && Keys(res.images) == Keys(res.refs)
            && Keys(res.refs) == (set i | 0 <= i < |conv| :: conv[i].value.alias)
            && forall k :: 0 <= k < |res.refs| ==> res.refs[k].1.layer == 1
  {
    var sat := Satellite(dsPath);
    var bands := BandList(bandsInfo).value;
    var conv := Conversions(sat, dsPath, bands);
    forall i | 0 <= i < |conv| && conv[i].Success? ensures conv[i].value.ref.layer == 1 {
      BandImageAlias(sat, dsPath, bands[i]);
    }
    CollectSrPaths(conv, |conv|);
    CollectKeys(conv, |conv|);
  }

  /** Bands with pairwise different names never overwrite one another: each is stored,
      in both mappings, under its own datacube name. */
  lemma DistinctNamesAllStored(bandsInfo: Value, dsPath: string, i: nat)
    requires GetImagesOf(bandsInfo, dsPath).Success?
    requires BandList(bandsInfo).Success? && i < |BandList(bandsInfo).value|
    requires var bands := BandList(bandsInfo).value;
             forall j, k :: 0 <= j < k < |bands| ==> Subscript(bands[j], "@name") != Subscript(bands[k], "@name")
    ensures var sat := Satellite(dsPath);
            var bands := BandList(bandsInfo).value;
            var res := GetImagesOf(bandsInfo, dsPath).value;
            && BandImage(sat, dsPath, bands[i]).Success?
            && var img := BandImage(sat, dsPath, bands[i]).value;
            && Get(res.refs, img.alias) == Some(img.ref)
            && Get(res.images, img.alias) == Some(Dict(img.info))
  {
    var sat := Satellite(dsPath);
    var bands := BandList(bandsInfo).value;
    var conv := Conversions(sat, dsPath, bands);
    CollectSucceeds(conv, |conv|);
    forall j | i < j < |conv| ensures conv[j].value.alias != conv[i].value.alias {
      BandImageAlias(sat, dsPath, bands[i]);
      BandImageAlias(sat, dsPath, bands[j]);
      if conv[j].value.alias == conv[i].value.alias {
        AliasesInjective(sat, Subscript(bands[i], "@name").value.s, Subscript(bands[j], "@name").value.s);
        assert false;
      }
    }
    assert LastAliased(conv, |conv|, i);
    CollectGet(conv, |conv|, i);
  }

  /** A product with a single band element: the converter leaves `band` a mapping, the
      loop then visits its keys, and a string has no `items`. */
  lemma SingleBandRecordFails(dsPath: string, record: Entries<Value>)
    requires record != []
    ensures GetImagesOf(Dict([("band", Dict(record))]), dsPath)
         == Failure(AttributeError("'str' object has no attribute 'items'"))
  {
    var bandsInfo := Dict([("band", Dict(record))]);
    assert Get([("band", Dict(record))], "band") == Some(Dict(record));
    var bands := BandList(bandsInfo).value;
    var conv := Conversions(Satellite(dsPath), dsPath, bands);
    assert conv[0] == Failure(AttributeError("'str' object has no attribute 'items'"));
    assert Collect(conv, 1) == Failure(conv[0].error);
    CollectNoRecovery(conv, 1, conv[0].error);
  }

  /** With no band at all nothing is looked up, not even the satellite. */
  lemma NoBandsAnySatellite(bandsInfo: Value, dsPath: string)
    requires BandList(bandsInfo) == Success([])
    ensures GetImagesOf(bandsInfo, dsPath) == Success(Images([], [], []))
  {
  }
}
