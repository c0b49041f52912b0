/** One band record of `get_images`: its fields renamed and converted into the band's
    `image_info`, including the sub-mappings and the bitmap table. */
module BandRecords {

  import opened Wrappers
  import opened Strings
  import opened PyValues

  // ---------------------------------------------------------------------------
  // Filling a dict

  /** The dict obtained by assigning the first n key-value pairs in order, given how each
      pair was computed; the first failure aborts. Both the bitmap table and `image_info`
      are filled this way. */
  function Filled(pairs: seq<Result<(string, Value), Error>>, n: nat): Result<Entries<Value>, Error>
    requires n <= |pairs|
  {
    if n == 0 then Success([])
    else match Filled(pairs, n - 1)
      case Failure(err) => Failure(err)
      case Success(d) =>
        match pairs[n - 1]
        case Failure(err) => Failure(err)
        case Success(kv) => Success(Put(d, kv.0, kv.1))
  }

  /** Each of the first n pairs was computed. */
  predicate AllOk(pairs: seq<Result<(string, Value), Error>>, n: nat)
    requires n <= |pairs|
  {
    forall i :: 0 <= i < n ==> pairs[i].Success?
  }

  /** No later pair of the first n has the key of pair i. */
  predicate LastKeyed(pairs: seq<Result<(string, Value), Error>>, n: nat, i: nat)
    requires i < n <= |pairs| && AllOk(pairs, n)
  {
    forall j :: i < j < n ==> pairs[j].value.0 != pairs[i].value.0
  }

  /** A pair that could not be computed, once the pairs before it were assigned, is the
      error of the whole fill. */
  lemma FilledFailsAt(pairs: seq<Result<(string, Value), Error>>, n: nat)
    requires n < |pairs| && Filled(pairs, n).Success? && pairs[n].Failure?
    ensures Filled(pairs, |pairs|) == Failure(pairs[n].error)
  {
    FilledNoRecovery(pairs, n + 1, pairs[n].error);
  }

  /** Once filling has failed, it stays failed with the same error. */
  lemma {:induction false} FilledNoRecovery(pairs: seq<Result<(string, Value), Error>>, n: nat, err: Error)
    requires n <= |pairs| && Filled(pairs, n) == Failure(err)
    ensures Filled(pairs, |pairs|) == Failure(err)
    decreases |pairs| - n
  {
    if n < |pairs| {
      FilledNoRecovery(pairs, n + 1, err);
    }
  }

  /** Filling succeeds exactly when every pair was computed. */
  lemma {:induction false} FilledSucceeds(pairs: seq<Result<(string, Value), Error>>, n: nat)
    requires n <= |pairs|
    ensures Filled(pairs, n).Success? <==> AllOk(pairs, n)
  {
    if n > 0 {
      FilledSucceeds(pairs, n - 1);
    }
  }

  /** The keys of the dict are the keys of the pairs, each once. */
  lemma {:induction false} FilledKeys(pairs: seq<Result<(string, Value), Error>>, n: nat)
    requires n <= |pairs| && Filled(pairs, n).Success?
    ensures AllOk(pairs, n)
    ensures DistinctKeys(Filled(pairs, n).value)
    ensures Keys(Filled(pairs, n).value) == (set i | 0 <= i < n :: pairs[i].value.0)
  {
    FilledSucceeds(pairs, n);
    if n > 0 {
      FilledKeys(pairs, n - 1);
      var d := Filled(pairs, n - 1).value;
      var kv := pairs[n - 1].value;
      PutKeys(d, kv.0, kv.1);
      PutDistinct(d, kv.0, kv.1);
      assert (set i | 0 <= i < n :: pairs[i].value.0)
          == (set i | 0 <= i < n - 1 :: pairs[i].value.0) + {kv.0};
    }
  }

  /** Each pair's value is stored under its key, the last pair of a key winning. */
  lemma {:induction false} FilledGet(pairs: seq<Result<(string, Value), Error>>, n: nat, i: nat)
    requires i < n <= |pairs| && Filled(pairs, n).Success?
    ensures AllOk(pairs, n)
    ensures LastKeyed(pairs, n, i) ==> Get(Filled(pairs, n).value, pairs[i].value.0) == Some(pairs[i].value.1)
  {
    FilledSucceeds(pairs, n);
    if LastKeyed(pairs, n, i) {
      var kv := pairs[n - 1].value;
      GetPut(Filled(pairs, n - 1).value, kv.0, kv.1, pairs[i].value.0);
      if i < n - 1 {
        assert LastKeyed(pairs, n - 1, i);
        FilledGet(pairs, n - 1, i);
      }
    }
  }

  // ---------------------------------------------------------------------------
  // Re-keying one band record

  /** A key containing '@' loses its first character; any other key is kept. */
  function FieldName(key: string): string
  {
    if '@' in key then key[1..] else key
  }

  /** The re-keyed copy of a `pixel_size` or `valid_range` mapping. */
  function ReKeyed(entries: Entries<Value>): Entries<Value>
    decreases |entries|
  {
    if entries == [] then []
    else
      var last := entries[|entries| - 1];
      Put(ReKeyed(entries[..|entries| - 1]), FieldName(last.0), last.1)
  }

  /** The `@num` of a bit must serve as a dictionary key. */
  function BitKey(v: Value): Result<string, Error>
  {
    match v
    case Str(s) => Success(s)
    case _ => Failure(TypeError("unhashable type: '" + TypeName(v) + "'"))
  }

  /** The entry one bit adds to the bitmap table: its `@num` as the key and its `#text` as
      the value. The text is looked up before the number, as Python evaluates the
      right-hand side of a subscript assignment first. */
  function BitEntry(bit: Value): Result<(string, Value), Error>
  {
    match Subscript(bit, "#text")
    case Failure(err) => Failure(err)
    case Success(text) =>
      match Subscript(bit, "@num")
      case Failure(err) => Failure(err)
      case Success(num) =>
        match BitKey(num)
        case Failure(err) => Failure(err)
        case Success(key) => Success((key, text))
  }

  function BitEntries(bits: seq<Value>): (entries: seq<Result<(string, Value), Error>>)
    ensures |entries| == |bits|
    ensures forall i :: 0 <= i < |bits| ==> entries[i] == BitEntry(bits[i])
  {
    seq(|bits|, i requires 0 <= i < |bits| => BitEntry(bits[i]))
  }

  /** The `{num: text}` mapping of a bitmap description's bits. */
  function BitTable(bits: seq<Value>): Result<Entries<Value>, Error>
  {
    Filled(BitEntries(bits), |bits|)
  }

  /** The bits of a `bitmap_description` element. */
  function Bits(description: Value): Result<seq<Value>, Error>
  {
    match Subscript(description, "bit")
    case Failure(err) => Failure(err)
    case Success(bit) => Iterate(bit)
  }

  /** `value.lower()` for the `data_type` field. */
  function Lowered(value: Value): Result<Value, Error>
  {
    if value.Str? then Success(Str(Lower(value.s)))
    else Failure(AttributeError("'" + TypeName(value) + "' object has no attribute 'lower'"))
  }

  /** A `pixel_size` or `valid_range` field: its items, re-keyed. */
  function SubMapping(value: Value): Result<Value, Error>
  {
    match Items(value)
    case Failure(err) => Failure(err)
    case Success(entries) => Success(Dict(ReKeyed(entries)))
  }

  /** A `bitmap_description` field: the table of its bits. */
  function Bitmap(description: Value): Result<Value, Error>
  {
    match Bits(description)
    case Failure(err) => Failure(err)
    case Success(bits) =>
      match BitTable(bits)
      case Failure(err) => Failure(err)
      case Success(table) => Success(Dict(table))
  }

  /** The value stored for one field of a band record. */
  function FieldValue(key: string, value: Value): Result<Value, Error>
  {
    if key == "@data_type" then Lowered(value)
    else if key == "pixel_size" || key == "valid_range" then SubMapping(value)
    else if key == "bitmap_description" then Bitmap(value)
    else Success(value)
  }

  /** The entry one field of a band record adds to `image_info`: its renamed key and its
      converted value. */
  function Field(key: string, value: Value): Result<(string, Value), Error>
  {
    match FieldValue(key, value)
    case Failure(err) => Failure(err)
    case Success(v) => Success((FieldName(key), v))
  }

  function Fields(entries: Entries<Value>): (fields: seq<Result<(string, Value), Error>>)
    ensures |fields| == |entries|
  {
    seq(|entries|, i requires 0 <= i < |entries| => Field(entries[i].0, entries[i].1))
  }

  lemma FieldsAt(entries: Entries<Value>, i: nat)
    requires i < |entries|
    ensures Fields(entries)[i] == Field(entries[i].0, entries[i].1)
  {
  }

  /** The `image_info` of a band record. */
  function ImageInfo(entries: Entries<Value>): Result<Entries<Value>, Error>
  {
    Filled(Fields(entries), |entries|)
  }

  // ---------------------------------------------------------------------------
  // The loops

  /** The sub-key loop for `pixel_size` and `valid_range`. */
  method ReKey(entries: Entries<Value>) returns (sub: Entries<Value>)
    ensures sub == ReKeyed(entries)
  {
    sub := [];
    var i := 0;
    while i < |entries|
      invariant 0 <= i <= |entries|
      invariant sub == ReKeyed(entries[..i])
    {
      assert entries[..i + 1][..i] == entries[..i];
      var (subKey, subValue) := entries[i];
      if '@' in subKey {
        sub := Put(sub, subKey[1..], subValue);
      } else {
        sub := Put(sub, subKey, subValue);
      }
      i := i + 1;
    }
    assert entries[..i] == entries;
  }

  /** The re-keyed mapping has distinct keys: exactly the sub-keys with their `@` dropped. */
  lemma {:induction false} ReKeyedKeys(entries: Entries<Value>)
    ensures DistinctKeys(ReKeyed(entries))
    ensures Keys(ReKeyed(entries)) == (set i | 0 <= i < |entries| :: FieldName(entries[i].0))
    decreases |entries|
  {
    if entries != [] {
      var front := entries[..|entries| - 1];
      var last := entries[|entries| - 1];
      ReKeyedKeys(front);
      PutKeys(ReKeyed(front), FieldName(last.0), last.1);
      PutDistinct(ReKeyed(front), FieldName(last.0), last.1);
      assert (set i | 0 <= i < |entries| :: FieldName(entries[i].0))
          == (set i | 0 <= i < |front| :: FieldName(front[i].0)) + {FieldName(last.0)};
    }
  }

  /** Each sub-key's value is stored under its `@`-dropped name, unless a later sub-key has
      the same name. */
  lemma {:induction false} ReKeyedGet(entries: Entries<Value>, i: nat)
    requires i < |entries|
    requires forall j :: i < j < |entries| ==> FieldName(entries[j].0) != FieldName(entries[i].0)
    ensures Get(ReKeyed(entries), FieldName(entries[i].0)) == Some(entries[i].1)
    decreases |entries|
  {
    var front := entries[..|entries| - 1];
    var last := entries[|entries| - 1];
    GetPut(ReKeyed(front), FieldName(last.0), last.1, FieldName(entries[i].0));
    if i < |entries| - 1 {
      assert front[i] == entries[i];
      ReKeyedGet(front, i);
    }
  }

  /** The body of the bit loop: the text, then the number, which must be a string. */
  method ReadBit(bit: Value) returns (r: Result<(string, Value), Error>)
    ensures r == BitEntry(bit)
  {
    var text := Subscript(bit, "#text");
    if text.Failure? {
      return Failure(text.error);
    }
    var num := Subscript(bit, "@num");
    if num.Failure? {
      return Failure(num.error);
    }
    var key := BitKey(num.value);
    if key.Failure? {
      return Failure(key.error);
    }
    r := Success((key.value, text.value));
  }

  /** The bit loop for `bitmap_description`, over bits already fetched. */
  method BitmapTable(bits: seq<Value>) returns (r: Result<Entries<Value>, Error>)
    ensures r == BitTable(bits)
  {
    ghost var entries := BitEntries(bits);
    var table: Entries<Value> := [];
    var i := 0;
    while i < |bits|
      invariant 0 <= i <= |bits|
      invariant Filled(entries, i) == Success(table)
    {
      var entry := ReadBit(bits[i]);
      assert entries[i] == entry;
      if entry.Failure? {
        FilledFailsAt(entries, i);
        return Failure(entry.error);
      }
      var (key, text) := entry.value;
      table := Put(table, key, text);
      i := i + 1;
    }
    r := Success(table);
  }

  /** The keys with a conversion of their own differ from one another, and only
      `@data_type` carries an '@'. */
  lemma SpecialKeys()
    ensures "@data_type" != "pixel_size" && "@data_type" != "valid_range" && "@data_type" != "bitmap_description"
    ensures FieldName("@data_type") == "data_type"
    ensures FieldName("pixel_size") == "pixel_size" && FieldName("valid_range") == "valid_range"
    ensures FieldName("bitmap_description") == "bitmap_description"
  {
    assert "@data_type"[0] != "pixel_size"[0];
    assert "@data_type"[0] == '@';
    assert forall c :: c in "pixel_size" ==> c != '@';
    assert forall c :: c in "valid_range" ==> c != '@';
    assert forall c :: c in "bitmap_description" ==> c != '@';
  }

  /** One field of the record loop: `data_type` lowered, the two sub-mappings re-keyed,
      the bitmap turned into a table, anything else kept; the key loses a leading '@'. */
  method FieldOf(key: string, value: Value) returns (r: Result<(string, Value), Error>)
    ensures r == Field(key, value)
  {
    SpecialKeys();
    var v := value;
    if key == "@data_type" {
      if !value.Str? {
        return Failure(AttributeError("'" + TypeName(value) + "' object has no attribute 'lower'"));
      }
      v := Str(Lower(value.s));
    }
    if key == "pixel_size" || key == "valid_range" {
      var items := Items(v);
      if items.Failure? {
        return Failure(items.error);
      }
      var sub := ReKey(items.value);
      r := Success((key, Dict(sub)));
    } else if key == "bitmap_description" {
      var bits := Bits(value);
      if bits.Failure? {
        return Failure(bits.error);
      }
      var table := BitmapTable(bits.value);
      if table.Failure? {
        return Failure(table.error);
      }
      r := Success((key, Dict(table.value)));
    } else if '@' in key {
      r := Success((key[1..], v));
    } else {
      r := Success((key, v));
    }
  }

  /** The record loop: each field stored converted under its renamed key. */
  method RecordInfo(entries: Entries<Value>) returns (r: Result<Entries<Value>, Error>)
    ensures r == ImageInfo(entries)
  {
    ghost var fields := Fields(entries);
    var info: Entries<Value> := [];
    var i := 0;
    while i < |entries|
      invariant 0 <= i <= |entries|
      invariant Filled(fields, i) == Success(info)
    {
      var (key, value) := entries[i];
      var field := FieldOf(key, value);
      FieldsAt(entries, i);
      if field.Failure? {
        FilledFailsAt(fields, i);
        return Failure(field.error);
      }
      var (name, v) := field.value;
      info := Put(info, name, v);
      i := i + 1;
    }
    r := Success(info);
  }

  // ---------------------------------------------------------------------------
  // What a band record becomes

  /** The record loop succeeds exactly when every field converts. */
  lemma ImageInfoSucceeds(entries: Entries<Value>)
    ensures ImageInfo(entries).Success? <==>
              forall i :: 0 <= i < |entries| ==> FieldValue(entries[i].0, entries[i].1).Success?
  {
    FilledSucceeds(Fields(entries), |entries|);
    forall i | 0 <= i < |entries| {
      FieldsAt(entries, i);
    }
  }

  /** The stored keys are the renamed field names, each once. */
  lemma ImageInfoKeys(entries: Entries<Value>)
    requires ImageInfo(entries).Success?
    ensures DistinctKeys(ImageInfo(entries).value)
    ensures Keys(ImageInfo(entries).value) == (set i | 0 <= i < |entries| :: FieldName(entries[i].0))
  {
    var fields := Fields(entries);
    FilledKeys(fields, |entries|);
    forall i | 0 <= i < |entries| {
      FieldsAt(entries, i);
    }
    assert (set i | 0 <= i < |entries| :: fields[i].value.0)
        == (set i | 0 <= i < |entries| :: FieldName(entries[i].0));
  }

  /** Each field is stored converted under its renamed key, the last field of a name winning. */
  lemma ImageInfoGet(entries: Entries<Value>, i: nat)
    requires i < |entries| && ImageInfo(entries).Success?
    requires forall j :: i < j < |entries| ==> FieldName(entries[j].0) != FieldName(entries[i].0)
    ensures FieldValue(entries[i].0, entries[i].1).Success?
    ensures Get(ImageInfo(entries).value, FieldName(entries[i].0))
         == Some(FieldValue(entries[i].0, entries[i].1).value)
  {
    var fields := Fields(entries);
    FilledGet(fields, |entries|, i);
    assert LastKeyed(fields, |entries|, i);
  }

  /** The bitmap table maps each bit's `@num` to its `#text`, a later bit of the same
      number overriding an earlier one. */
  lemma BitTableGet(bits: seq<Value>, i: nat)
    requires i < |bits| && BitTable(bits).Success?
    requires forall j :: i < j < |bits| ==> Subscript(bits[j], "@num") != Subscript(bits[i], "@num")
    ensures Subscript(bits[i], "#text").Success? && Subscript(bits[i], "@num").Success?
    ensures Subscript(bits[i], "@num").value.Str?
    ensures Get(BitTable(bits).value, Subscript(bits[i], "@num").value.s) == Some(Subscript(bits[i], "#text").value)
  {
    var entries := BitEntries(bits);
    FilledGet(entries, |bits|, i);
    assert LastKeyed(entries, |bits|, i);
  }
}
