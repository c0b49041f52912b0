/** The Python values the core passes around: the nested structure the element
    converter builds, Python's insertion-ordered dictionaries, and the exceptions
    the core can raise. */
module PyValues {

  import opened Wrappers

  /** The exceptions raised along the paths the model covers. */
  datatype Error =
    | OSError                        // file missing or unreadable
    | RasterioIOError                // rasterio could not open or read a raster
    | RasterError(what: string)      // any other failure inside the raster library
    | KeyError(key: string)
    | TypeError(what: string)
    | AttributeError(what: string)
    | ValueError(what: string)
    | UnboundLocalError(name: string)
    | RuntimeError(message: string)
  {
    /** The two exception classes the valid-region wrapper catches. */
    predicate IsIOError()
    {
      OSError? || RasterioIOError?
    }
  }

  /** A Python dict with string keys: its entries in insertion order. */
  type Entries<V> = seq<(string, V)>

  /** A converted metadata node: None, a string, a dict or a list. */
  datatype Value =
    | Null
    | Str(s: string)
    | Dict(entries: Entries<Value>)
    | List(items: seq<Value>)

  function Keys<V>(d: Entries<V>): set<string>
  {
    if d == [] then {} else {d[0].0} + Keys(d[1..])
  }

  /** The keys are exactly the first components of the entries. */
  lemma {:induction false} KeysAre<V>(d: Entries<V>, k: string)
    ensures k in Keys(d) <==> exists i :: 0 <= i < |d| && d[i].0 == k
  {
    if d != [] {
      KeysAre(d[1..], k);
      if exists i :: 0 <= i < |d[1..]| && d[1..][i].0 == k {
        var i :| 0 <= i < |d[1..]| && d[1..][i].0 == k;
        assert d[i + 1].0 == k;
      }
      if exists i :: 0 <= i < |d| && d[i].0 == k {
        var i :| 0 <= i < |d| && d[i].0 == k;
        if i > 0 {
          assert d[1..][i - 1].0 == k;
        }
      }
    }
  }

  /** No key occurs twice, which Python's dict guarantees. */
  predicate DistinctKeys<V>(d: Entries<V>)
  {
    forall i, j :: 0 <= i < j < |d| ==> d[i].0 != d[j].0
  }

  /** A dict with a first entry has distinct keys when the rest has and does not repeat it. */
  lemma DistinctCons<V>(x: (string, V), rest: Entries<V>)
    ensures DistinctKeys([x] + rest) <==> x.0 !in Keys(rest) && DistinctKeys(rest)
  {
    KeysAre(rest, x.0);
    var d := [x] + rest;
    assert d[1..] == rest;
    if DistinctKeys(d) {
      forall i, j | 0 <= i < j < |rest| ensures rest[i].0 != rest[j].0 {
        assert d[i + 1] == rest[i] && d[j + 1] == rest[j];
      }
      forall i | 0 <= i < |rest| ensures rest[i].0 != x.0 {
        assert d[i + 1] == rest[i] && d[0] == x;
      }
    }
    if x.0 !in Keys(rest) && DistinctKeys(rest) {
      forall i, j | 0 <= i < j < |d| ensures d[i].0 != d[j].0 {
        if i > 0 {
          assert d[i] == rest[i - 1];
        }
        assert d[j] == rest[j - 1];
      }
    }
  }

  /** `d.get(k)`: the value stored under k, if any. */
  function Get<V>(d: Entries<V>, k: string): Option<V>
  {
    if d == [] then None
    else if d[0].0 == k then Some(d[0].1)
    else Get(d[1..], k)
  }

  /** Get finds a value exactly for the keys of the dict. */
  lemma {:induction false} GetKeys<V>(d: Entries<V>, k: string)
    ensures Get(d, k).None? <==> k !in Keys(d)
  {
    if d != [] {
      GetKeys(d[1..], k);
    }
  }

  /** In a dict with distinct keys, the value of the entry at position i is what Get finds. */
  lemma {:induction false} GetAt<V>(d: Entries<V>, i: nat)
    requires DistinctKeys(d) && i < |d|
    ensures Get(d, d[i].0) == Some(d[i].1)
  {
    if i > 0 {
      assert d == [d[0]] + d[1..];
      DistinctCons(d[0], d[1..]);
      GetAt(d[1..], i - 1);
      KeysAre(d[1..], d[i].0);
      assert d[1..][i - 1] == d[i];
    }
  }

  /** `d[k] = v`: an existing key keeps its position, a new key goes last. */
  function Put<V>(d: Entries<V>, k: string, v: V): Entries<V>
  {
    if d == [] then [(k, v)]
    else if d[0].0 == k then [(k, v)] + d[1..]
    else [d[0]] + Put(d[1..], k, v)
  }

  /** After `d[k] = v`, k holds v and every other key holds what it held. */
  lemma {:induction false} GetPut<V>(d: Entries<V>, k: string, v: V, k': string)
    ensures Get(Put(d, k, v), k') == if k' == k then Some(v) else Get(d, k')
  {
    if d != [] && d[0].0 != k {
      GetPut(d[1..], k, v, k');
    }
  }

  /** Assigning adds k to the keys, keeps them distinct, appends a new key at the end and
      overwrites an existing key where it stands. */
  lemma {:induction false} PutShape<V>(d: Entries<V>, k: string, v: V)
    ensures Keys(Put(d, k, v)) == Keys(d) + {k}
    ensures DistinctKeys(d) ==> DistinctKeys(Put(d, k, v))
    ensures k !in Keys(d) ==> Put(d, k, v) == d + [(k, v)]
    ensures k in Keys(d) ==> |Put(d, k, v)| == |d|
    ensures Put(d, k, v) != []
  {
    PutKeys(d, k, v);
    PutDistinct(d, k, v);
    PutLength(d, k, v);
  }

  lemma {:induction false} PutKeys<V>(d: Entries<V>, k: string, v: V)
    ensures Keys(Put(d, k, v)) == Keys(d) + {k}
  {
    if d != [] && d[0].0 != k {
      PutKeys(d[1..], k, v);
    }
  }

  lemma {:induction false} PutDistinct<V>(d: Entries<V>, k: string, v: V)
    ensures DistinctKeys(d) ==> DistinctKeys(Put(d, k, v))
  {
    if DistinctKeys(d) && d != [] {
      assert d == [d[0]] + d[1..];
      DistinctCons(d[0], d[1..]);
      if d[0].0 != k {
        PutDistinct(d[1..], k, v);
        PutKeys(d[1..], k, v);
        DistinctCons(d[0], Put(d[1..], k, v));
      } else {
        DistinctCons((k, v), d[1..]);
      }
    }
  }

  lemma {:induction false} PutLength<V>(d: Entries<V>, k: string, v: V)
    ensures k !in Keys(d) ==> Put(d, k, v) == d + [(k, v)]
    ensures k in Keys(d) ==> |Put(d, k, v)| == |d|
    ensures Put(d, k, v) != []
  {
    if d != [] && d[0].0 != k {
      PutLength(d[1..], k, v);
      assert d == [d[0]] + d[1..];
      assert k in Keys(d) <==> k in Keys(d[1..]);
    }
  }

  /** `d.pop(k, None)` with its result discarded: the entry for k goes, the others stay in order. */
  function Pop<V>(d: Entries<V>, k: string): Entries<V>
  {
    if d == [] then []
    else if d[0].0 == k then Pop(d[1..], k)
    else [d[0]] + Pop(d[1..], k)
  }

  /** After the pop, k is gone, every other key holds what it held, and the keys stay distinct. */
  lemma {:induction false} PopShape<V>(d: Entries<V>, k: string, k': string)
    ensures Get(Pop(d, k), k') == if k' == k then None else Get(d, k')
    ensures Keys(Pop(d, k)) == Keys(d) - {k}
    ensures DistinctKeys(d) ==> DistinctKeys(Pop(d, k))
  {
    if d != [] {
      assert d == [d[0]] + d[1..];
      DistinctCons(d[0], d[1..]);
      PopShape(d[1..], k, k');
      if d[0].0 != k {
        DistinctCons(d[0], Pop(d[1..], k));
      }
    }
  }

  /** `type(v).__name__`, as Python's error messages name it. */
  function TypeName(v: Value): string
  {
    match v
    case Null => "NoneType"
    case Str(_) => "str"
    case Dict(_) => "dict"
    case List(_) => "list"
  }

  /** `v[key]` for a string key. */
  function Subscript(v: Value, key: string): (r: Result<Value, Error>)
    ensures r.Success? <==> v.Dict? && Get(v.entries, key).Some?
    ensures r.Success? ==> Get(v.entries, key) == Some(r.value)
    ensures v.Dict? && Get(v.entries, key).None? ==> r == Failure(KeyError(key))
  {
    match v
    case Dict(es) =>
      (match Get(es, key)
       case Some(x) => Success(x)
       case None => Failure(KeyError(key)))
    case Str(_) => Failure(TypeError("string indices must be integers, not 'str'"))
    case List(_) => Failure(TypeError("list indices must be integers or slices, not str"))
    case Null => Failure(TypeError("'NoneType' object is not subscriptable"))
  }

  /** What `for x in v` visits: a list's items, a dict's keys, a string's characters. */
  function Iterate(v: Value): (r: Result<seq<Value>, Error>)
    ensures v.List? ==> r == Success(v.items)
    ensures v.Dict? ==> r.Success? && |r.value| == |v.entries|
                        && forall i :: 0 <= i < |v.entries| ==> r.value[i] == Str(v.entries[i].0)
    ensures r.Failure? <==> v.Null?
  {
    match v
    case List(xs) => Success(xs)
    case Dict(es) => Success(seq(|es|, i requires 0 <= i < |es| => Str(es[i].0)))
    case Str(s) => Success(seq(|s|, i requires 0 <= i < |s| => Str([s[i]])))
    case Null => Failure(TypeError("'NoneType' object is not iterable"))
  }

  /** `v.items()`: only a dict has them. */
  function Items(v: Value): (r: Result<Entries<Value>, Error>)
    ensures r.Success? <==> v.Dict?
    ensures v.Dict? ==> r.value == v.entries
  {
    match v
    case Dict(es) => Success(es)
    case Str(_) => Failure(AttributeError("'str' object has no attribute 'items'"))
    case List(_) => Failure(AttributeError("'list' object has no attribute 'items'"))
    case Null => Failure(AttributeError("'NoneType' object has no attribute 'items'"))
  }
}
