# Landsat USGS level-2 metadata preparation, modelled in Dafny

This project models the core of `ls_usgs_l2_prepare.py`. That script turns the ESPA XML metadata of a Landsat surface-reflectance product into the dataset document of an Open Data Cube. The model covers the sequential logic between the parsed XML tree and the dataset document:

- **ElementConverter** models `strip_tag`, `elem_to_dict` and the post-parse part of `xml2dict`.
  - An XML element comes in as a datatype (tag, attributes, children, text, tail). It becomes a `Value`: `Null`, `Str`, an insertion-ordered `Dict` or a `List`.
  - `ElemToDict` is a method with the source's two loops. It is proved equal to the recursive function `ElementValue`.
  - The lemmas cover namespace stripping, `@`-prefixed attributes, list promotion of repeated children, `#text`/`#tail` placement, and the rule that an empty element becomes its text or `None`.
  - As a consequence, the `'empty xml file'` guard can never raise.
- **ValidRegion** models the mask loop of `valid_region` over integer grids, and the exception policy of `safe_valid_region`.
  - A band read is an integer grid or the exception the raster library raised.
  - The per-pixel test is either the bit test `(sample & m) == m` or `sample != 0`. Python's `&` on arbitrary-precision integers is defined bit by bit, two's complement included.
- **BandRecords** and **BandImages** model `get_images` with the `BAND_ALIASES` table.
  - BandRecords covers the field loop over one band record: `@` prefixes dropped, `data_type` lower-cased, `pixel_size`/`valid_range` re-keyed, and the `bitmap_description` bit table.
  - BandImages covers the band loop: the alias lookup, `layer`, the `tar:` reference or joined path, removal of `file_name`, and the `sr_band` list.
- **Corners** models the two loops of `get_geo_ref` and `get_geo_ref_points` and the boxes they return.
- **Prepare** models `_to_lists`, the EPSG code `32600 + int(zone)` and the `'{}T{}'` sensing-time label of `prepare_dataset`.
- **Supporting modules:**
  - **PyValues**: dict lookup, assignment and pop, subscripting, iteration and `.items()`, with Python's exceptions.
  - **Strings**: `strip`, ASCII `lower`, substring test, `find`/`rfind` of a character.
  - **Paths**: `os.path.basename`, `os.path.join`, `pathlib.Path` parsing, `str()` and `.suffix`.
  - **Wrappers**: `Option` and `Result`.

Every Python exception a modelled path can raise is a `Failure` carrying an `Error` value. A `KeyError` keeps its key. Other exceptions keep their class and name the offending type as CPython does, but the rest of the message is a paraphrase of CPython's text. No precondition excludes an input the source handles.

## Model

| member | source | states |
|---|---|---|
| ElementConverter.StripTagQualified | ls_usgs_l2_prepare.py:208-214 | a tag `{uri}local` (with no `}` inside uri or local) is stripped to `local` |
| ElementConverter.StripTagPlain | ls_usgs_l2_prepare.py:208-214 | a tag with no `}` is returned unchanged |
| ElementConverter.StripTagIdempotent | ls_usgs_l2_prepare.py:208-214 | a stripped tag holds no `}`, and stripping it again changes nothing |
| ElementConverter.StripTagIsSplit | ls_usgs_l2_prepare.py:208-214 | StripTag is the second piece of `tag.split('}')` when there are several pieces, the tag otherwise |
| ElementConverter.StripTag | ls_usgs_l2_prepare.py:208-214 | definition of `strip_tag` (no ensures; its properties are the StripTag lemmas) |
| ElementConverter.AddChild | ls_usgs_l2_prepare.py:241-249 | definition of one child merge: new key, promotion to a two-element list, or append to a list (no ensures; see AddChildPromotes) |
| ElementConverter.Finish | ls_usgs_l2_prepare.py:259-268 | definition of the `#tail`/`#text` placement and the `text or None` rule (no ensures; see FinishKeeps, DictIff) |
| ElementConverter.ElementValue | ls_usgs_l2_prepare.py:217-269 | definition of the value `elem_to_dict` stores under the tag (no ensures; see the lemmas about it) |
| ElementConverter.Xml2Dict | ls_usgs_l2_prepare.py:289-295 | definition of the post-parse part of `xml2dict` (no ensures; see Xml2DictNeverEmpty) |
| ElementConverter.PrefixAttributes | ls_usgs_l2_prepare.py:228-229 | the attribute loop builds exactly `AttrEntries(attrib)`; by AttrEntriesInOrder, with distinct attribute names that is one `'@'+key` entry per attribute, in document order |
| ElementConverter.MergeChild | ls_usgs_l2_prepare.py:241-249 | one child merge step equals the three-way case split (absent, non-list, list) of AddChild |
| ElementConverter.TextAndTail | ls_usgs_l2_prepare.py:250-268 | the text/tail epilogue equals Finish applied to the optionally stripped text and tail |
| ElementConverter.ElemToDict | ls_usgs_l2_prepare.py:217-269 | the converter returns a one-key dict whose key is the tag (namespace-stripped when asked) and whose value is ElementValue |
| ElementConverter.AttrEntriesEmpty | ls_usgs_l2_prepare.py:228-229 | the attribute entries are empty exactly when the element has no attributes |
| ElementConverter.AddChildShape | ls_usgs_l2_prepare.py:241-249 | a merge leaves the dict non-empty and leaves every other key as it was |
| ElementConverter.MergedEmpty | ls_usgs_l2_prepare.py:228-249 | the dict before the text step is empty exactly when there are no attributes and no children |
| ElementConverter.ValueNeverListNorEmptyDict | ls_usgs_l2_prepare.py:262-268 | an element's value is never a list and never `{}` |
| ElementConverter.DictIff | ls_usgs_l2_prepare.py:259-268 | the value is a dict exactly when there are attributes, children or a non-empty tail |
| ElementConverter.LeafIsText | ls_usgs_l2_prepare.py:250-268 | an element with no attributes, no children and no tail becomes its text, or None when that is empty; with strip off the text is raw |
| ElementConverter.StrippedLeafIsNoneIffBlank | ls_usgs_l2_prepare.py:252-268 | with strip on, such an element is None exactly when its text is absent or all whitespace, and otherwise the stripped text |
| ElementConverter.AttrEntriesGet | ls_usgs_l2_prepare.py:228-229 | attribute `k=v` is stored as `'@'+k` mapping to `v` |
| ElementConverter.AttrEntriesGetOther | ls_usgs_l2_prepare.py:228-229 | a key that is no `'@'+k` is absent from the attribute entries |
| ElementConverter.MergedKeeps | ls_usgs_l2_prepare.py:232-249 | merging children whose tags differ from a key leaves that key's attribute entry untouched |
| ElementConverter.FinishKeeps | ls_usgs_l2_prepare.py:259-268 | the text step keeps a non-empty dict a dict and changes no key other than `#tail`/`#text` |
| ElementConverter.AttributesArePrefixed | ls_usgs_l2_prepare.py:228-229 | in the element's final dict, `'@'+k` holds the attribute value `v` unchanged (unless a child has that tag) |
| ElementConverter.MergedPromotes | ls_usgs_l2_prepare.py:232-249 | after n children, a key holds nothing, the single occurrence, or the list of all occurrences in document order |
| ElementConverter.MergeStepPromotes | ls_usgs_l2_prepare.py:241-249 | one merge step extends the occurrence list of the merged tag and leaves other keys' promotion state unchanged |
| ElementConverter.AddChildPromotes | ls_usgs_l2_prepare.py:241-249 | absent becomes the value, a non-list becomes `[first, second]`, a list is appended to |
| ElementConverter.OccurrencesNotLists | ls_usgs_l2_prepare.py:233-239 | no child's converted value is a list, so promotion never mistakes a value for an earlier list |
| ElementConverter.RepeatedChildrenPromoted | ls_usgs_l2_prepare.py:239-249 | a tag seen once maps to its value unwrapped; seen k >= 2 times it maps to a list of length k in document order |
| ElementConverter.TailRecorded | ls_usgs_l2_prepare.py:256-260 | a non-empty (stripped) tail is stored as `#tail` in the element's own dict |
| ElementConverter.TextRecorded | ls_usgs_l2_prepare.py:262-265 | `#text` is present exactly when the text is non-empty and the dict already is, and it holds that text |
| ElementConverter.Xml2DictNeverEmpty | ls_usgs_l2_prepare.py:289-295 | the `'empty xml file'` error never arises; the result is the root's value when its tag is `espa_metadata`, otherwise `KeyError('espa_metadata')` |
| ElementConverter.TakeMetadataOfOneKey | ls_usgs_l2_prepare.py:290-295 | from a one-key dict, `espa_metadata` is taken or a KeyError raised; a non-`{}` value passes the guard |
| ElementConverter.Tag | ls_usgs_l2_prepare.py:225-227 | definition of the key an element is stored under, namespace-stripped when asked (no ensures; see ElemToDict, StripTagIsSplit) |
| ElementConverter.Truthy | ls_usgs_l2_prepare.py:254-264 | definition of Python truthiness of an optional text or tail (no ensures; see DictIff, TextRecorded) |
| ElementConverter.Cleaned | ls_usgs_l2_prepare.py:252-257 | definition of the conditional strip of text and tail (no ensures; see LeafIsText, StrippedLeafIsNoneIffBlank) |
| ElementConverter.AttrEntries | ls_usgs_l2_prepare.py:228-229 | definition of the dict after the attribute loop (no ensures; see AttrEntriesInOrder, AttrEntriesGet, AttrEntriesGetOther) |
| ElementConverter.PrefixedDistinct | ls_usgs_l2_prepare.py:229 | distinct attribute names give distinct `'@'`-prefixed keys |
| ElementConverter.AttrEntriesInOrder | ls_usgs_l2_prepare.py:228-229 | with distinct attribute names, the attribute dict is exactly one `('@'+k, v)` entry per attribute, in document order |
| ElementConverter.Merged | ls_usgs_l2_prepare.py:232-249 | definition of the dict after n children are merged (no ensures; see MergedPromotes, MergedKeeps, MergedEmpty) |
| ElementConverter.Occurrences | ls_usgs_l2_prepare.py:232-239 | specification: the converted values of the children with a given tag, in document order (no ensures; see RepeatedChildrenPromoted) |
| ElementConverter.Promoted | ls_usgs_l2_prepare.py:241-249 | specification: nothing, the single value, or the list of values (no ensures; see MergedPromotes) |
| ElementConverter.TakeMetadata | ls_usgs_l2_prepare.py:290-293 | definition of `dict_out['espa_metadata']` and the `{}` guard (no ensures; see TakeMetadataOfOneKey) |
| ValidRegion.Bit | ls_usgs_l2_prepare.py:159-160 | every bit of an integer's two's-complement form is 0 or 1 |
| ValidRegion.BitOfAnd | ls_usgs_l2_prepare.py:159-160 | bit i of `a & b` is the product of bit i of a and bit i of b |
| ValidRegion.BitOfZero | ls_usgs_l2_prepare.py:159-160 | every bit of 0 is 0 |
| ValidRegion.BitOfMinusOne | ls_usgs_l2_prepare.py:159-160 | every bit of -1 is 1 |
| ValidRegion.BitsDetermine | ls_usgs_l2_prepare.py:159-160 | integers with the same bits are equal |
| ValidRegion.BitTestIff | ls_usgs_l2_prepare.py:159-160 | `(sample & m) == m` holds exactly when every bit set in m is set in sample |
| ValidRegion.BandMask | ls_usgs_l2_prepare.py:159-162 | the band's mask has one cell per sample, set iff the bit test (mask value given) or the non-zero test (none given) passes |
| ValidRegion.Or | ls_usgs_l2_prepare.py:166 | the in-place OR of a new band mask into the mask is the cell-wise OR |
| ValidRegion.Accumulate | ls_usgs_l2_prepare.py:155-166 | definition of the band loop after the first mask (no ensures; see AccumulateSameShape, AccumulateMismatch, AccumulateStopsAt) |
| ValidRegion.ValidMaskOf | ls_usgs_l2_prepare.py:152-167 | definition of the mask `valid_region` builds, or its exception (no ensures; see ValidMaskOfReadBands) |
| ValidRegion.SafeValidMask | ls_usgs_l2_prepare.py:188-196 | definition of `safe_valid_region`'s exception policy (no ensures; see SafeValidMaskOutcomes) |
| ValidRegion.ValidMask | ls_usgs_l2_prepare.py:152-167 | the mask loop computes ValidMaskOf, failing on the first band that cannot be read |
| ValidRegion.AccumulateSameShape | ls_usgs_l2_prepare.py:163-166 | folding same-shape bands into a mask sets a cell iff it was set or some band marks it |
| ValidRegion.AccumulateMismatch | ls_usgs_l2_prepare.py:166 | a band of another shape makes the in-place OR raise ValueError |
| ValidRegion.ValidMaskOfReadBands | ls_usgs_l2_prepare.py:152-167 | no bands raise the AttributeError of `None.astype`; same-shape bands give a mask whose pixel is set iff some band marks it; otherwise ValueError |
| ValidRegion.ValidMaskOrderIrrelevant | ls_usgs_l2_prepare.py:153-166 | permuting the bands gives the same mask, or the same error |
| ValidRegion.SameShapeOfSameBands | ls_usgs_l2_prepare.py:163-166 | whether all bands share a shape depends only on the set of bands |
| ValidRegion.MarkedBySomeOfSameBands | ls_usgs_l2_prepare.py:163-166 | whether some band marks a pixel depends only on the set of bands |
| ValidRegion.AccumulateStopsAt | ls_usgs_l2_prepare.py:156-158 | the first unreadable band's exception is the result |
| ValidRegion.SafeValidMaskFirstFailure | ls_usgs_l2_prepare.py:188-196 | that exception becomes None when it is OSError or RasterioIOError and propagates otherwise |
| ValidRegion.SafeValidMaskOfNoBands | ls_usgs_l2_prepare.py:167 | with no bands, the AttributeError of `None.astype` escapes the wrapper |
| ValidRegion.SafeValidMaskOutcomes | ls_usgs_l2_prepare.py:193-196 | the wrapper returns None iff valid_region raised an I/O-class error, the mask iff it succeeded, and otherwise the same non-I/O error |
| ValidRegion.MaskValueTwoExample | ls_usgs_l2_prepare.py:159-160 | a single concrete example, not a general property: with mask value 2, samples 0, 2, 3, 6 give invalid, valid, valid, valid |
| ValidRegion.BitAnd | ls_usgs_l2_prepare.py:159-160 | definition of `&` on integers, two's complement included (no ensures; see BitOfAnd, BitTestIff) |
| ValidRegion.BitsCovered | ls_usgs_l2_prepare.py:159-160 | specification: every bit set in m is set in the sample (no ensures; see BitTestIff) |
| ValidRegion.PixelValid | ls_usgs_l2_prepare.py:159-162 | definition of the per-pixel test (no ensures; see BandMask, BitTestIff) |
| ValidRegion.WellFormed | ls_usgs_l2_prepare.py:158 | definition: one cell per pixel of the grid (no ensures; see AccumulateSameShape) |
| ValidRegion.AllRead | ls_usgs_l2_prepare.py:156-158 | specification: every band was read (no ensures; see ValidMaskOfReadBands) |
| ValidRegion.SameShape | ls_usgs_l2_prepare.py:163-166 | specification: every band has the given shape (no ensures; see SameShapeOfSameBands) |
| ValidRegion.MarkedBySome | ls_usgs_l2_prepare.py:163-166 | specification: some band marks the pixel valid (no ensures; see ValidMaskOfReadBands, MarkedBySomeOfSameBands) |
| BandRecords.FilledFailsAt | ls_usgs_l2_prepare.py:319-338 | a failing step after a successful prefix is the loop's exception |
| BandRecords.FilledNoRecovery | ls_usgs_l2_prepare.py:319-338 | once the dict-filling loop raised, its result is that exception |
| BandRecords.FilledSucceeds | ls_usgs_l2_prepare.py:319-338 | the loop succeeds exactly when every step does |
| BandRecords.FilledKeys | ls_usgs_l2_prepare.py:319-338 | the filled dict has distinct keys, exactly the keys assigned |
| BandRecords.FilledGet | ls_usgs_l2_prepare.py:319-338 | a key holds the value of its last assignment |
| BandRecords.BitEntries | ls_usgs_l2_prepare.py:332-333 | definition helper, its contract is index-by-index: one `@num`/`#text` lookup per bit record, in order (its properties are proved in BitTableGet) |
| BandRecords.Fields | ls_usgs_l2_prepare.py:319-338 | definition helper, its contract is index-by-index: one rewritten field per record entry (its properties are proved in ImageInfoGet) |
| BandRecords.FieldsAt | ls_usgs_l2_prepare.py:319-338 | definition helper, its contract is index-by-index: the i-th rewritten field comes from the i-th entry (its properties are proved in ImageInfoGet) |
| BandRecords.ReKey | ls_usgs_l2_prepare.py:323-329 | the sub-mapping loop drops the first character of keys containing `@` and keeps the others |
| BandRecords.ReKeyed | ls_usgs_l2_prepare.py:323-328 | definition of the re-keyed sub-mapping (no ensures; see ReKeyedKeys, ReKeyedGet) |
| BandRecords.ReKeyedKeys | ls_usgs_l2_prepare.py:323-328 | the re-keyed sub-mapping has distinct keys, exactly the sub-keys with a key containing `@` losing its first character |
| BandRecords.ReKeyedGet | ls_usgs_l2_prepare.py:323-328 | each sub-value is stored under its re-keyed name, unless a later sub-key has the same name |
| BandRecords.BitTable | ls_usgs_l2_prepare.py:330-334 | definition of the bitmap table (no ensures; see BitTableGet) |
| BandRecords.FieldValue | ls_usgs_l2_prepare.py:320-338 | definition of one field's stored value (no ensures; see ImageInfoGet) |
| BandRecords.ImageInfo | ls_usgs_l2_prepare.py:317-338 | definition of `image_info` (no ensures; see ImageInfoSucceeds, ImageInfoKeys, ImageInfoGet) |
| BandRecords.ReadBit | ls_usgs_l2_prepare.py:333 | one bit record gives its `@num` key and `#text` value, or the subscript's exception |
| BandRecords.BitmapTable | ls_usgs_l2_prepare.py:330-334 | the bitmap loop computes BitTable, raising on the first bad bit record |
| BandRecords.SpecialKeys | ls_usgs_l2_prepare.py:320-335 | helper about string literals: `@data_type` is none of the three special keys and loses its `@`; the special keys keep their names |
| BandRecords.FieldOf | ls_usgs_l2_prepare.py:320-338 | one loop step rewrites a field: lower-cased data type, re-keyed sub-mapping, bit table, `@` dropped, or kept |
| BandRecords.RecordInfo | ls_usgs_l2_prepare.py:317-338 | the field loop computes ImageInfo |
| BandRecords.ImageInfoSucceeds | ls_usgs_l2_prepare.py:319-338 | the record converts exactly when every field converts |
| BandRecords.ImageInfoKeys | ls_usgs_l2_prepare.py:319-338 | the image info has distinct keys, exactly the rewritten field names |
| BandRecords.ImageInfoGet | ls_usgs_l2_prepare.py:319-338 | the last field of a name is stored under it, converted |
| BandRecords.BitTableGet | ls_usgs_l2_prepare.py:330-334 | each bit's `@num` maps to its `#text`, the last bit of a number winning |
| BandRecords.Filled | ls_usgs_l2_prepare.py:319-338 | definition of the dict-filling loop over keyed results (no ensures; see FilledSucceeds, FilledKeys, FilledGet, FilledNoRecovery) |
| BandRecords.AllOk | ls_usgs_l2_prepare.py:319-338 | specification: every step of the loop succeeds (no ensures; see FilledSucceeds) |
| BandRecords.LastKeyed | ls_usgs_l2_prepare.py:319-338 | specification: no later step assigns the same key (no ensures; see FilledGet) |
| BandRecords.FieldName | ls_usgs_l2_prepare.py:325-338 | definition of the key rename: a key containing `@` loses its first character (no ensures; see ImageInfoKeys, ReKeyedKeys) |
| BandRecords.BitKey | ls_usgs_l2_prepare.py:333 | definition of `@num` as a dict key (no ensures; see BitTableGet) |
| BandRecords.BitEntry | ls_usgs_l2_prepare.py:333 | definition of the entry one bit adds, `#text` read before `@num` (no ensures; see ReadBit, BitTableGet) |
| BandRecords.Bits | ls_usgs_l2_prepare.py:332 | definition of `band[key]['bit']` iterated (no ensures; see BitmapTable) |
| BandRecords.Lowered | ls_usgs_l2_prepare.py:320-321 | definition of `value.lower()` and its AttributeError (no ensures; see ImageInfoGet, Strings.Lower) |
| BandRecords.SubMapping | ls_usgs_l2_prepare.py:322-329 | definition of the re-keyed `pixel_size`/`valid_range` value (no ensures; see ReKeyedKeys, ReKeyedGet) |
| BandRecords.Bitmap | ls_usgs_l2_prepare.py:330-334 | definition of the `bitmap_description` value (no ensures; see BitTableGet) |
| BandRecords.Field | ls_usgs_l2_prepare.py:319-338 | definition of the renamed key and converted value of one field (no ensures; see ImageInfoGet) |
| BandImages.Conversions | ls_usgs_l2_prepare.py:316-351 | definition helper, its contract is index-by-index: one conversion per band record, in order (its properties are proved in CollectGet) |
| BandImages.Satellite | ls_usgs_l2_prepare.py:311 | the satellite code is the base name's prefix of length 4, or the whole base name when that is shorter |
| BandImages.BandImageOf | ls_usgs_l2_prepare.py:317-348 | the per-band body computes BandImage |
| BandImages.BandPath | ls_usgs_l2_prepare.py:341-344 | definition of the band path (no ensures; see TarPathSeparates, JoinedPathEndsInFile, JoinNeedsString) |
| BandImages.Alias | ls_usgs_l2_prepare.py:347-348 | definition of `BAND_ALIASES[sat][band['@name']]` (no ensures; see BandImageAlias) |
| BandImages.BandImage | ls_usgs_l2_prepare.py:317-348 | definition of one band's conversion (no ensures; see BandImageContents) |
| BandImages.Collect | ls_usgs_l2_prepare.py:316-351 | definition of the band loop's three results (no ensures; see CollectSucceeds, CollectSrPaths, CollectKeys, CollectGet) |
| BandImages.GetImagesOf | ls_usgs_l2_prepare.py:298-353 | definition of `get_images` (no ensures; see GetImagesResults) |
| BandImages.CollectNoRecovery | ls_usgs_l2_prepare.py:316-351 | once a band raised, get_images raises that exception |
| BandImages.GetImages | ls_usgs_l2_prepare.py:298-353 | the band loop computes GetImagesOf |
| BandImages.BandImageContents | ls_usgs_l2_prepare.py:319-345 | layer is 1, `file_name` is gone, keys are distinct, and each other field is stored converted |
| BandImages.TarPathSeparates | ls_usgs_l2_prepare.py:341-344 | for a `.gz` dataset the path is `tar:` + dataset + `!` + file, and the last `!` separates them |
| BandImages.JoinedPathEndsInFile | ls_usgs_l2_prepare.py:341-342 | otherwise the path starts with the normalised dataset path and its basename is the file name |
| BandImages.JoinNeedsString | ls_usgs_l2_prepare.py:342 | joining a non-string file name raises TypeError |
| BandImages.MissingFileNameFirst | ls_usgs_l2_prepare.py:341-344 | a band without `file_name` raises `KeyError('file_name')` |
| BandImages.TmAliasesInjective | ls_usgs_l2_prepare.py:31-81 | the Landsat 4/5/7 table maps distinct band names to distinct aliases (the table is the constant `BandImages.TmAliases`) |
| BandImages.OliAliasesInjective | ls_usgs_l2_prepare.py:82-99 | the Landsat 8 table maps distinct band names to distinct aliases (the table is the constant `BandImages.OliAliases`) |
| BandImages.AliasesInjective | ls_usgs_l2_prepare.py:31-100 | for every satellite, distinct band names get distinct aliases (the table is the constant `BandImages.BandAliases`) |
| BandImages.SrOnly | ls_usgs_l2_prepare.py:350-351 | the result holds exactly the paths containing `sr_band` |
| BandImages.PathsOf | ls_usgs_l2_prepare.py:341-344 | definition helper, its contract is index-by-index: the i-th path is the i-th band's path (its properties are proved in CollectSrPaths) |
| BandImages.CollectSucceeds | ls_usgs_l2_prepare.py:316-351 | get_images succeeds exactly when every band converts |
| BandImages.CollectSrPaths | ls_usgs_l2_prepare.py:350-351 | `images_list` is the `sr_band` paths in band order |
| BandImages.CollectKeys | ls_usgs_l2_prepare.py:347-348 | both dicts have distinct keys, the same keys, exactly the aliases, and every layer is 1 |
| BandImages.PutLayers | ls_usgs_l2_prepare.py:340-347 | storing a layer-1 reference keeps every layer 1 |
| BandImages.CollectGet | ls_usgs_l2_prepare.py:347-348 | a band is stored under its alias unless a later band has the same alias |
| BandImages.BandImageAlias | ls_usgs_l2_prepare.py:311-348 | a converted band's alias is `BAND_ALIASES[sat][band['@name']]` |
| BandImages.GetImagesResults | ls_usgs_l2_prepare.py:298-353 | on success, images_list, images and images_band have the shape CollectSrPaths and CollectKeys state |
| BandImages.DistinctNamesAllStored | ls_usgs_l2_prepare.py:316-353 | with distinct band names every band is stored under its alias |
| BandImages.SingleBandRecordFails | ls_usgs_l2_prepare.py:315-319 | a single `<band>` (a dict, not a list) makes the loop reach `str.items` and raise AttributeError |
| BandImages.NoBandsAnySatellite | ls_usgs_l2_prepare.py:316-353 | an empty band list gives three empty results, whatever the satellite |
| BandImages.BandList | ls_usgs_l2_prepare.py:315-316 | definition of `bands_info['band']` iterated (no ensures; see GetImagesResults, SingleBandRecordFails, NoBandsAnySatellite) |
| BandImages.IsSrPath | ls_usgs_l2_prepare.py:350 | definition of `'sr_band' in path` (no ensures; see SrOnly) |
| BandImages.AllConvert | ls_usgs_l2_prepare.py:316-351 | specification: every band converts (no ensures; see CollectSucceeds) |
| BandImages.LastAliased | ls_usgs_l2_prepare.py:347-348 | specification: no later band has the same alias (no ensures; see CollectGet) |
| Corners.ScanCorners | ls_usgs_l2_prepare.py:108-115 | the corner loop computes Scan over all records |
| Corners.Scan | ls_usgs_l2_prepare.py:108-115 | definition of the corner loop (no ensures; see the Scan lemmas) |
| Corners.ScanNoRecovery | ls_usgs_l2_prepare.py:108-115 | once a record raised, the loop raises that exception |
| Corners.ScanStep | ls_usgs_l2_prepare.py:109-115 | each record replaces the UL corner or the other corner |
| Corners.ScanSucceeds | ls_usgs_l2_prepare.py:108-115 | the loop succeeds exactly when every record is readable |
| Corners.ScanUpperLeftAbsent | ls_usgs_l2_prepare.py:110-112 | no UL corner is found exactly when no record is UL |
| Corners.ScanUpperLeftIsLast | ls_usgs_l2_prepare.py:110-112 | the UL corner is the last UL record's |
| Corners.ScanOtherAbsent | ls_usgs_l2_prepare.py:113-115 | no LR corner is found exactly when every record is UL |
| Corners.ScanOtherIsLast | ls_usgs_l2_prepare.py:113-115 | the LR corner is the last non-UL record's |
| Corners.GetGeoRefPoints | ls_usgs_l2_prepare.py:125-144 | the method computes GeoRefPointsOf |
| Corners.PointsBox | ls_usgs_l2_prepare.py:139-144 | definition of the projected box (no ensures; see PointsFormBox) |
| Corners.GeoRefPointsOf | ls_usgs_l2_prepare.py:125-144 | definition of `get_geo_ref_points` (no ensures; see GeoRefPointsUseLastRecords) |
| Corners.LatLonBoxAsWritten | ls_usgs_l2_prepare.py:117-122 | as-written definition of the geographic box, with ur and ll as the code builds them (no ensures; see AsWrittenSwapsCorners) |
| Corners.GeoRefAsWrittenOf | ls_usgs_l2_prepare.py:103-122 | as-written definition of `get_geo_ref` (no ensures) |
| Corners.LatLonBox | ls_usgs_l2_prepare.py:117-122 | corrected definition of the geographic box (no ensures; see LatLonFormBox) |
| Corners.GeoRefOf | ls_usgs_l2_prepare.py:103-122 | corrected definition of `get_geo_ref` (no ensures) |
| Corners.GetGeoRef | ls_usgs_l2_prepare.py:103-122 | corrected definition (see Findings): the corner loop as written, with the ur/ll assembly the Findings row gives as intended; it computes GeoRefOf |
| Corners.PointsFormBox | ls_usgs_l2_prepare.py:139-144 | ul and lr are the converted corners, `ur = (lr_x, ul_y)`, `ll = (ul_x, lr_y)` |
| Corners.LatLonFormBox | ls_usgs_l2_prepare.py:117-122 | corrected: `ur = (lat ul_y, lon lr_x)`, `ll = (lat lr_y, lon ul_x)` |
| Corners.LatLonMatchesPoints | ls_usgs_l2_prepare.py:117-144 | the corrected geographic box has the corners of the projected box, as (y, x) |
| Corners.AsWrittenSwapsCorners | ls_usgs_l2_prepare.py:117-122 | as written, ur and ll are exchanged against the corrected box |
| Corners.AsWrittenUpperRightIsLowerLeft | ls_usgs_l2_prepare.py:119 | UL (lat 10, lon 0), LR (lat 0, lon 10): as written ur is (0, 0), intended (10, 10) |
| Corners.MissingUpperLeft | ls_usgs_l2_prepare.py:117-144 | without a UL record, UnboundLocalError on the first ul variable read |
| Corners.MissingOther | ls_usgs_l2_prepare.py:117-144 | without a non-UL record, UnboundLocalError on the first lr variable read |
| Corners.GeoRefPointsUseLastRecords | ls_usgs_l2_prepare.py:125-144 | the box is built from the scan of `corner_point` records, and fails without a UL record |
| Corners.Records | ls_usgs_l2_prepare.py:108-109 | definition of `info[key]` iterated (no ensures; see GeoRefPointsUseLastRecords) |
| Corners.IsUpperLeft | ls_usgs_l2_prepare.py:110 | definition of `@location == 'UL'` (no ensures; see ScanUpperLeftAbsent) |
| Corners.CornerOf | ls_usgs_l2_prepare.py:109-115 | definition of one record's coordinate pair, with the subscripts' exceptions (no ensures; see ScanSucceeds) |
| Corners.Readable | ls_usgs_l2_prepare.py:109-115 | specification: the record has `@location` and both coordinates (no ensures; see ScanSucceeds) |
| Corners.MarkedUpperLeft | ls_usgs_l2_prepare.py:110 | specification: the record is the UL corner (no ensures; see ScanUpperLeftIsLast, ScanOtherIsLast) |
| Prepare.ToListsOfTuples | ls_usgs_l2_prepare.py:199-205 | tuples become lists, and turning them back gives the input |
| Prepare.ToListsOfToTuples | ls_usgs_l2_prepare.py:199-205 | every list-only value is `_to_lists` of a tuple-only one |
| Prepare.ToListsKeepsLeaves | ls_usgs_l2_prepare.py:199-205 | the leaves keep their values and order |
| Prepare.LeavesOfAllPointwise | ls_usgs_l2_prepare.py:204 | the comprehension keeps leaves item by item |
| Prepare.ToListsIdempotent | ls_usgs_l2_prepare.py:199-205 | applying it twice is applying it once |
| Prepare.TupleInsideListKept | ls_usgs_l2_prepare.py:203-205 | a single concrete example, not a general property: a tuple inside a list is not converted |
| Prepare.ToLists | ls_usgs_l2_prepare.py:199-205 | definition of `_to_lists` (no ensures; see ToListsOfTuples) |
| Prepare.ParseDecimal | ls_usgs_l2_prepare.py:375-376 | an optional sign and ASCII digits, with single `_` between digits, give their value; nothing else parses |
| Prepare.ParseInt | ls_usgs_l2_prepare.py:375-376 | `int()` of a string strips it and parses it or raises ValueError; other values raise TypeError |
| Prepare.NatString | ls_usgs_l2_prepare.py:375-376 | a natural number's decimal form is non-empty digits |
| Prepare.NatStringParses | ls_usgs_l2_prepare.py:375-376 | the digits read back as the number |
| Prepare.ParseIntString | ls_usgs_l2_prepare.py:375-376 | `int()` of a whitespace-padded decimal form gives the integer back |
| Prepare.IntStringParses | ls_usgs_l2_prepare.py:375-376 | a decimal form has no edge whitespace and parses to its integer |
| Prepare.PaddedStrip | ls_usgs_l2_prepare.py:375-376 | stripping removes exactly the padding |
| Prepare.PadLeft | ls_usgs_l2_prepare.py:375-376 | left trimming removes exactly leading padding |
| Prepare.PadRight | ls_usgs_l2_prepare.py:375-376 | right trimming removes exactly trailing padding |
| Prepare.EpsgCodeOfZone | ls_usgs_l2_prepare.py:375-376 | zone z gives 32600 + z; UTM north codes 32601..32660 come exactly from zones 1..60 |
| Prepare.EpsgCode | ls_usgs_l2_prepare.py:375-376 | definition of `32600 + int(zone_code)` (no ensures; see EpsgCodeOfZone) |
| Prepare.SensingTime | ls_usgs_l2_prepare.py:372-373 | definition of the `'{}T{}'` label (no ensures; see SensingTimeSplits) |
| Prepare.SensingTimeSplits | ls_usgs_l2_prepare.py:372-373 | the label is date, `T`, time, and the first `T` separates them |
| Prepare.ToTuples | ls_usgs_l2_prepare.py:199-205 | specification: the inverse of `_to_lists` (no ensures; see ToListsOfTuples, ToListsOfToTuples) |
| Prepare.TuplesOnly | ls_usgs_l2_prepare.py:203 | specification: a value built from tuples only (no ensures; see ToListsOfTuples) |
| Prepare.ListsOnly | ls_usgs_l2_prepare.py:203 | specification: a value built from lists only (no ensures; see ToListsOfToTuples) |
| Prepare.LeavesOf | ls_usgs_l2_prepare.py:199-205 | specification: the numbers of a nested value in order (no ensures; see ToListsKeepsLeaves) |
| Prepare.LeavesOfAll | ls_usgs_l2_prepare.py:204 | specification: the numbers of a sequence of nested values (no ensures; see LeavesOfAllPointwise) |
| Prepare.IsDigit | ls_usgs_l2_prepare.py:375-376 | definition of an ASCII decimal digit (no ensures; see NatString) |
| Prepare.DigitString | ls_usgs_l2_prepare.py:375-376 | definition of a decimal literal body, single `_` between digits allowed (no ensures; see ParseDecimal) |
| Prepare.DigitsValue | ls_usgs_l2_prepare.py:375-376 | definition of the value of a decimal literal body (no ensures; see NatStringParses) |
| Prepare.IntString | ls_usgs_l2_prepare.py:375-376 | definition of `str(z)` (no ensures; see IntStringParses, EpsgCodeOfZone) |
| Prepare.Formatted | ls_usgs_l2_prepare.py:372-373 | definition of `'{}'.format(v)` for a string or None (no ensures; see SensingTimeSplits) |
| PyValues.KeysAre | ls_usgs_l2_prepare.py:319 | a dict's keys are its entries' first components |
| PyValues.DistinctCons | ls_usgs_l2_prepare.py:224 | keys stay distinct with a new first key exactly when it is not among the rest |
| PyValues.GetKeys | ls_usgs_l2_prepare.py:239 | lookup finds a value exactly for keys of the dict |
| PyValues.GetAt | ls_usgs_l2_prepare.py:239 | with distinct keys, lookup finds each entry |
| PyValues.GetPut | ls_usgs_l2_prepare.py:229 | after `d[k] = v`, k holds v and other keys are unchanged |
| PyValues.PutShape | ls_usgs_l2_prepare.py:229 | assignment adds k, keeps keys distinct, appends a new key, overwrites in place |
| PyValues.PutKeys | ls_usgs_l2_prepare.py:229 | assignment adds exactly k to the keys |
| PyValues.PutDistinct | ls_usgs_l2_prepare.py:229 | assignment keeps keys distinct |
| PyValues.PutLength | ls_usgs_l2_prepare.py:229 | a new key goes last; an existing one keeps the length |
| PyValues.PopShape | ls_usgs_l2_prepare.py:345 | `pop(k, None)` removes k only and keeps keys distinct |
| PyValues.Subscript | ls_usgs_l2_prepare.py:239 | `v[key]` succeeds iff v is a dict holding key; KeyError for a missing key; TypeError for non-dicts |
| PyValues.Iterate | ls_usgs_l2_prepare.py:109 | iterating a list yields its items, a dict its keys, and None raises TypeError |
| PyValues.Items | ls_usgs_l2_prepare.py:319 | `.items()` succeeds exactly on dicts and gives their entries |
| PyValues.Keys | ls_usgs_l2_prepare.py:319 | definition of the key set of a dict (no ensures; see KeysAre) |
| PyValues.DistinctKeys | ls_usgs_l2_prepare.py:224 | definition: no key occurs twice, as in a Python dict (no ensures; see PutDistinct) |
| PyValues.Get | ls_usgs_l2_prepare.py:239 | definition of dict lookup (no ensures; see GetKeys, GetAt, GetPut) |
| PyValues.Put | ls_usgs_l2_prepare.py:229 | definition of `d[k] = v` on an insertion-ordered dict (no ensures; see PutShape, GetPut) |
| PyValues.Pop | ls_usgs_l2_prepare.py:345 | definition of `d.pop(k, None)` (no ensures; see PopShape) |
| PyValues.TypeName | ls_usgs_l2_prepare.py:321 | definition of the type name Python error messages use (no ensures) |
| Strings.TrimLeft | ls_usgs_l2_prepare.py:255 | lstrip removes exactly a whitespace prefix and leaves no leading whitespace |
| Strings.TrimRight | ls_usgs_l2_prepare.py:255 | rstrip removes exactly a whitespace suffix and leaves no trailing whitespace |
| Strings.StripIsMaximalInfix | ls_usgs_l2_prepare.py:255-257 | strip keeps the infix between whitespace edges and starts and ends with non-whitespace |
| Strings.StripEmptyIffBlank | ls_usgs_l2_prepare.py:255-257 | strip gives `''` exactly for all-whitespace strings |
| Strings.NonBlankSurvives | ls_usgs_l2_prepare.py:255-257 | a non-whitespace character keeps the stripped string non-empty |
| Strings.BlankTrimsAway | ls_usgs_l2_prepare.py:255-257 | an all-whitespace string trims to `''` |
| Strings.StripIdempotent | ls_usgs_l2_prepare.py:255-257 | stripping twice is stripping once |
| Strings.Lower | ls_usgs_l2_prepare.py:321 | lower keeps the length and lower-cases each ASCII letter |
| Strings.LowerIdempotent | ls_usgs_l2_prepare.py:321 | lower is idempotent and leaves no upper-case ASCII letter |
| Strings.Contains | ls_usgs_l2_prepare.py:350 | `sub in s` holds exactly when sub occurs contiguously in s |
| Strings.FindChar | ls_usgs_l2_prepare.py:210-212 | the index found is the first occurrence, None exactly when absent |
| Strings.FindCharAt | ls_usgs_l2_prepare.py:210-212 | the first occurrence is what is found |
| Strings.RFindChar | ls_usgs_l2_prepare.py:344 | the index found is the last occurrence, -1 exactly when absent |
| Strings.RFindCharAt | ls_usgs_l2_prepare.py:344 | the last occurrence is what is found |
| Strings.IsSpace | ls_usgs_l2_prepare.py:255-257 | definition of the `str.isspace` characters (no ensures; see TrimLeft, TrimRight) |
| Strings.Strip | ls_usgs_l2_prepare.py:255-257 | definition of `str.strip` (no ensures; see StripIsMaximalInfix, StripEmptyIffBlank, StripIdempotent) |
| Strings.LowerChar | ls_usgs_l2_prepare.py:321 | definition of ASCII lower-casing of one character (no ensures; see Lower) |
| Strings.ContainsAt | ls_usgs_l2_prepare.py:350 | specification: sub occurs at position i (no ensures; see Contains) |
| Paths.Split | ls_usgs_l2_prepare.py:210 | `str.split` yields at least one piece, none holding the separator |
| Paths.JoinSplit | ls_usgs_l2_prepare.py:210 | joining the pieces with the separator gives the string back |
| Paths.SplitJoin | ls_usgs_l2_prepare.py:210 | splitting a join of separator-free pieces gives the pieces |
| Paths.Basename | ls_usgs_l2_prepare.py:311 | basename is the part after the last `/` |
| Paths.JoinBasename | ls_usgs_l2_prepare.py:342 | the basename of `join(a, b)` is b for a non-empty slash-free b |
| Paths.JoinRelativeExtends | ls_usgs_l2_prepare.py:342 | joining a relative b keeps a as the prefix and b as the suffix |
| Paths.Components | ls_usgs_l2_prepare.py:341-342 | pathlib keeps exactly the pieces that are neither empty nor `.` |
| Paths.Root | ls_usgs_l2_prepare.py:341-342 | the root is `''`, `/` or `//`, and is a prefix of the path |
| Paths.Parse | ls_usgs_l2_prepare.py:341-342 | the parsed parts are kept pieces without slashes |
| Paths.Name | ls_usgs_l2_prepare.py:341 | name is the last part, `''` exactly when there is none |
| Paths.Suffix | ls_usgs_l2_prepare.py:341 | suffix is the name's last `.`-piece, empty for no dot, a leading dot only or a trailing dot |
| Paths.GzSuffix | ls_usgs_l2_prepare.py:341 | `stem + '.gz'` has suffix `.gz` |
| Paths.SingleComponent | ls_usgs_l2_prepare.py:341-342 | a one-piece relative path parses to itself |
| Paths.TarRefRoundTrip | ls_usgs_l2_prepare.py:344 | `'tar:{}!{}'` can be split back into archive and member at the last `!` |
| Paths.JoinWith | ls_usgs_l2_prepare.py:210 | specification: `c.join(pieces)` (no ensures; see JoinSplit, SplitJoin) |
| Paths.Join | ls_usgs_l2_prepare.py:342 | definition of `os.path.join` of two parts (no ensures; see JoinBasename, JoinRelativeExtends) |
| Paths.Kept | ls_usgs_l2_prepare.py:341-342 | definition of a path piece pathlib keeps (no ensures; see Components) |
| Paths.PathStr | ls_usgs_l2_prepare.py:341-342 | definition of `str(Path(p))` (no ensures; see SingleComponent, JoinedPathEndsInFile) |
| Paths.TarRef | ls_usgs_l2_prepare.py:344 | definition of `'tar:{}!{}'.format(archive, member)` (no ensures; see TarRefRoundTrip) |

## Left out

- Raster I/O: `rasterio.open` and `dataset.read` (lines 156-158) are not modelled. Each band comes in as an integer grid or the exception the read raised.
- `rasterio.features.shapes` and the `astype('uint8')` conversion (line 167) are foreign calls, and the model stops at the mask. The one consequence kept is that no bands leave `mask` as None, so `astype` raises AttributeError.
- The shapely geometry (lines 168-185) is left out: union, convex hull, buffer, simplify, intersection and affine transform. It is floating-point geometry in a foreign library.
- XML parsing with `ET.fromstring` and the file read (line 288) are left out. The parsed element tree is the input.
- `float()` in the corner functions is an uninterpreted parameter `toFloat`, with its own exceptions.
- Several foreign calls are left out: the osr spatial reference and WKT export (lines 377-378, 417), `uuid5` (line 389), the SHA-1 checksums (lines 367, 504) and the YAML dump and load.
- The rest of `prepare_dataset` is only assembly of the dataset document and is left out; the model keeps the EPSG code and the sensing time.
- `main` (lines 464-523) and `find_xml` (lines 436-461) are file-system, tar and CLI plumbing and are left out.
- Strings.Lower: only ASCII letters are lower-cased; Python's full Unicode case mapping is not modelled.
- Prepare.ParseDecimal: only ASCII digits are accepted. Python's `int()` also takes other Unicode decimal digits.
- Paths.Parse: this follows `pathlib.PurePosixPath` on POSIX. Windows paths are not modelled.
- ValidRegion.AccumulateMismatch: numpy broadcasting is not modelled. Any shape other than an exact match raises ValueError, though numpy would also broadcast a 1-row or 1-column grid.
- ValidRegion.ValidMask: the dtype and width of the raster samples are not modelled; samples are unbounded integers.
- BandRecords.BitKey: a bit whose `@num` is not a string is a TypeError in the model. Python would accept any hashable key there, such as None.
- BandImages.Alias: a None `@name` raises a KeyError whose key is the text `None`, not the None object. The exception class is the same as Python's.
- BandImages.BandPath: in the `tar:` case a dict or list file name is a TypeError. Python would format its repr into the string.
- Prepare.SensingTime: only string and None values are formatted (None as `None`). `Formatted` gives None for containers, whose repr Python would insert.
- BandImages.GetImages: `images_band` values are a BandRef datatype (layer, path), not a dict.
- BandImages.Alias: in the constant `BandAliases`, LT04, LT05 and LE07 share one table, TmAliases, because their rows are identical. LC08 has its own table, OliAliases.
- ElementConverter.ElemToDict, BandImages.GetImages: dicts are values. The in-place mutation and the aliasing of Python dicts and lists are not modelled. The source never shares them between iterations.

## Findings

| source | as written | input that shows it | evidently intended | confidence | as-written member | corrected member |
|---|---|---|---|---|---|---|
| ls_usgs_l2_prepare.py:119-120 | `ur` is (lat `lr_y`, lon `ul_x`) and `ll` is (lat `ul_y`, lon `lr_x`), which are the geographic lower-left and upper-right corners | UL corner lat 10 / lon 0 and LR corner lat 0 / lon 10: as written ur = (0, 0) | ur = (lat `ul_y`, lon `lr_x`), ll = (lat `lr_y`, lon `ul_x`), as get_geo_ref_points does at lines 141-142: ur = (10, 10) | medium, not executed | Corners.AsWrittenUpperRightIsLowerLeft | Corners.LatLonFormBox |
