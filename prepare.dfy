/** The pure pieces of `prepare_dataset`: `_to_lists` for the valid-data coordinates,
    `int()` on the UTM zone, the EPSG code, and the sensing-time label. */
module Prepare {

  import opened Wrappers
  import opened Strings
  import opened PyValues

  // ---------------------------------------------------------------------------
  // _to_lists

  /** A coordinate structure as shapely's `mapping` returns it: numbers in tuples; lists
      appear after conversion. */
  datatype Nested = Leaf(v: real) | Tuple(items: seq<Nested>) | PyList(items: seq<Nested>)

  /** `_to_lists(x)`: a tuple becomes a list of its converted elements; anything else,
      a list included, is returned as it is. */
  function ToLists(x: Nested): Nested
  {
    match x
    case Tuple(items) => PyList(seq(|items|, i requires 0 <= i < |items| => ToLists(items[i])))
    case _ => x
  }

  /** The inverse direction: every list becomes a tuple. */
  function ToTuples(x: Nested): Nested
  {
    match x
    case PyList(items) => Tuple(seq(|items|, i requires 0 <= i < |items| => ToTuples(items[i])))
    case _ => x
  }

  /** No node is a list: what shapely hands over. */
  predicate TuplesOnly(x: Nested)
  {
    match x
    case Leaf(_) => true
    case Tuple(items) => forall i :: 0 <= i < |items| ==> TuplesOnly(items[i])
    case PyList(_) => false
  }

  /** No node is a tuple: what YAML can write as plain sequences. */
  predicate ListsOnly(x: Nested)
  {
    match x
    case Leaf(_) => true
    case PyList(items) => forall i :: 0 <= i < |items| ==> ListsOnly(items[i])
    case Tuple(_) => false
  }

  /** The numbers in order, whatever holds them. */
  function LeavesOf(x: Nested): seq<real>
  {
    match x
    case Leaf(v) => [v]
    case Tuple(items) => LeavesOfAll(items)
    case PyList(items) => LeavesOfAll(items)
  }

  function LeavesOfAll(xs: seq<Nested>): seq<real>
    decreases xs
  {
    if xs == [] then [] else LeavesOf(xs[0]) + LeavesOfAll(xs[1..])
  }

  /** Tuples all the way down become lists all the way down, and converting back gives
      the original structure. */
  lemma {:induction false} ToListsOfTuples(x: Nested)
    requires TuplesOnly(x)
    ensures ListsOnly(ToLists(x))
    ensures ToTuples(ToLists(x)) == x
  {
    match x
    case Leaf(_) =>
    case Tuple(items) =>
      forall i | 0 <= i < |items| ensures ListsOnly(ToLists(items[i])) && ToTuples(ToLists(items[i])) == items[i] {
        ToListsOfTuples(items[i]);
      }
      var converted := seq(|items|, i requires 0 <= i < |items| => ToLists(items[i]));
      assert ToLists(x) == PyList(converted);
      assert seq(|converted|, i requires 0 <= i < |converted| => ToTuples(converted[i])) == items;
  }

  /** Lists all the way down come back from their tuple form. */
  lemma {:induction false} ToListsOfToTuples(y: Nested)
    requires ListsOnly(y)
    ensures TuplesOnly(ToTuples(y))
    ensures ToLists(ToTuples(y)) == y
  {
    match y
    case Leaf(_) =>
    case PyList(items) =>
      forall i | 0 <= i < |items| ensures TuplesOnly(ToTuples(items[i])) && ToLists(ToTuples(items[i])) == items[i] {
        ToListsOfToTuples(items[i]);
      }
      var converted := seq(|items|, i requires 0 <= i < |items| => ToTuples(items[i]));
      assert ToTuples(y) == Tuple(converted);
      assert seq(|converted|, i requires 0 <= i < |converted| => ToLists(converted[i])) == items;
  }

  /** The conversion keeps every number, in order. */
  lemma {:induction false} ToListsKeepsLeaves(x: Nested)
    ensures LeavesOf(ToLists(x)) == LeavesOf(x)
  {
    match x
    case Leaf(_) =>
    case PyList(_) =>
    case Tuple(items) =>
      var converted := seq(|items|, i requires 0 <= i < |items| => ToLists(items[i]));
      forall i | 0 <= i < |items| ensures LeavesOf(converted[i]) == LeavesOf(items[i]) {
        ToListsKeepsLeaves(items[i]);
      }
      LeavesOfAllPointwise(converted, items);
  }

  lemma {:induction false} LeavesOfAllPointwise(xs: seq<Nested>, ys: seq<Nested>)
    requires |xs| == |ys|
    requires forall i :: 0 <= i < |xs| ==> LeavesOf(xs[i]) == LeavesOf(ys[i])
    ensures LeavesOfAll(xs) == LeavesOfAll(ys)
    decreases |xs|
  {
    if xs != [] {
      LeavesOfAllPointwise(xs[1..], ys[1..]);
    }
  }

  /** Converting twice is converting once. */
  lemma ToListsIdempotent(x: Nested)
    ensures ToLists(ToLists(x)) == ToLists(x)
  {
  }

  /** Only the outermost tuple layer reached through tuples is converted: a tuple inside a
      list stays a tuple. */
  lemma TupleInsideListKept()
    ensures ToLists(PyList([Tuple([Leaf(1.0)])])) == PyList([Tuple([Leaf(1.0)])])
    ensures !ListsOnly(ToLists(PyList([Tuple([Leaf(1.0)])])))
  {
    assert PyList([Tuple([Leaf(1.0)])]).items[0] == Tuple([Leaf(1.0)]);
  }

  // ---------------------------------------------------------------------------
  // int() on a decimal string

  predicate IsDigit(c: char)
  {
    '0' <= c <= '9'
  }

  /** Python's decimal integer body: digits, with single underscores allowed between them. */
  predicate DigitString(s: string)
  {
    && |s| > 0 && IsDigit(s[0]) && IsDigit(s[|s| - 1])
    && (forall i :: 0 <= i < |s| ==> IsDigit(s[i]) || s[i] == '_')
    && (forall i :: 0 <= i < |s| - 1 ==> !(s[i] == '_' && s[i + 1] == '_'))
  }

  /** The number the digits spell, underscores skipped. */
  function DigitsValue(s: string): nat
  {
    if s == [] then 0
    else if s[|s| - 1] == '_' then DigitsValue(s[..|s| - 1])
    else 10 * DigitsValue(s[..|s| - 1]) + (if IsDigit(s[|s| - 1]) then s[|s| - 1] as int - '0' as int else 0)
  }

  /** A stripped decimal literal with an optional sign. */
  function ParseDecimal(t: string): (r: Option<int>)
    ensures DigitString(t) ==> r == Some(DigitsValue(t) as int)
    ensures |t| > 1 && t[0] == '-' && DigitString(t[1..]) ==> r == Some(-(DigitsValue(t[1..]) as int))
    ensures |t| > 1 && t[0] == '+' && DigitString(t[1..]) ==> r == Some(DigitsValue(t[1..]) as int)
    ensures r.Some? ==> DigitString(t) || (|t| > 1 && (t[0] == '-' || t[0] == '+') && DigitString(t[1..]))
  {
    if |t| > 0 && (t[0] == '+' || t[0] == '-') then
      (if DigitString(t[1..]) then Some(if t[0] == '-' then -(DigitsValue(t[1..]) as int) else DigitsValue(t[1..]) as int)
       else None)
    else if DigitString(t) then Some(DigitsValue(t) as int)
    else None
  }

  /** `int(v)` for the value the converter produced: surrounding whitespace is ignored,
      anything else that is not a decimal literal is a ValueError, and only a string is
      accepted at all. */
  function ParseInt(v: Value): (r: Result<int, Error>)
    ensures v.Str? ==> (r.Success? <==> ParseDecimal(Strip(v.s)).Some?)
    ensures v.Str? && r.Success? ==> r.value == ParseDecimal(Strip(v.s)).value
    ensures v.Str? && r.Failure? ==> r.error.ValueError?
    ensures !v.Str? ==> r.Failure? && r.error.TypeError?
  {
    match v
    case Str(s) =>
      (match ParseDecimal(Strip(s))
       case Some(z) => Success(z)
       case None => Failure(ValueError("invalid literal for int() with base 10")))
    case Null => Failure(TypeError("int() argument must be a string, a bytes-like object or a real number, not 'NoneType'"))
    case Dict(_) => Failure(TypeError("int() argument must be a string, a bytes-like object or a real number, not 'dict'"))
    case List(_) => Failure(TypeError("int() argument must be a string, a bytes-like object or a real number, not 'list'"))
  }

  /** `str(n)` for a natural number. */
  function NatString(n: nat): (s: string)
    ensures |s| > 0 && forall i :: 0 <= i < |s| ==> IsDigit(s[i])
  {
    var d := [('0' as int + n % 10) as char];
    if n < 10 then d else NatString(n / 10) + d
  }

  /** `str(z)` for an integer. */
  function IntString(z: int): string
  {
    if z < 0 then "-" + NatString(-z) else NatString(z)
  }

  lemma {:induction false} NatStringParses(n: nat)
    ensures DigitString(NatString(n)) && DigitsValue(NatString(n)) == n
  {
    var s := NatString(n);
    if n >= 10 {
      NatStringParses(n / 10);
      assert s[..|s| - 1] == NatString(n / 10);
    }
  }

  /** `int(str(z)) == z`, also with whitespace around the digits. */
  lemma ParseIntString(z: int, pad: string)
    requires forall i :: 0 <= i < |pad| ==> IsSpace(pad[i])
    ensures ParseInt(Str(pad + IntString(z) + pad)) == Success(z)
  {
    var s := IntString(z);
    IntStringParses(z);
    PaddedStrip(pad, s);
  }

  /** The decimal text of z parses back to z and has no whitespace at its ends. */
  lemma IntStringParses(z: int)
    ensures var s := IntString(z); |s| > 0 && !IsSpace(s[0]) && !IsSpace(s[|s| - 1])
    ensures ParseDecimal(IntString(z)) == Some(z)
  {
    var s := IntString(z);
    NatStringParses(if z < 0 then -z else z);
    if z < 0 {
      assert s[1..] == NatString(-z);
    }
  }

  /** Whitespace around a string without whitespace at its ends is what strip removes. */
  lemma PaddedStrip(pad: string, s: string)
    requires forall i :: 0 <= i < |pad| ==> IsSpace(pad[i])
    requires |s| > 0 && !IsSpace(s[0]) && !IsSpace(s[|s| - 1])
    ensures Strip(pad + s + pad) == s
  {
    PadLeft(pad, s + pad);
    assert pad + s + pad == pad + (s + pad);
    PadRight(s, pad);
  }

  lemma {:induction false} PadLeft(pad: string, s: string)
    requires forall i :: 0 <= i < |pad| ==> IsSpace(pad[i])
    requires |s| > 0 && !IsSpace(s[0])
    ensures TrimLeft(pad + s) == s
    decreases |pad|
  {
    if pad != [] {
      assert (pad + s)[1..] == pad[1..] + s;
      PadLeft(pad[1..], s);
    }
  }

  lemma {:induction false} PadRight(s: string, pad: string)
    requires forall i :: 0 <= i < |pad| ==> IsSpace(pad[i])
    requires |s| > 0 && !IsSpace(s[|s| - 1])
    ensures TrimRight(s + pad) == s
    decreases |pad|
  {
    if pad != [] {
      var p := pad[..|pad| - 1];
      assert (s + pad)[..|s + pad| - 1] == s + p;
      PadRight(s, p);
    }
  }

  // ---------------------------------------------------------------------------
  // The EPSG code and the sensing time

  /** `32600 + int(zone_code)`: the WGS 84 / UTM north code of the scene's zone. */
  function EpsgCode(zone: Value): Result<int, Error>
  {
    match ParseInt(zone)
    case Failure(err) => Failure(err)
    case Success(z) => Success(32600 + z)
  }

  /** The code gives the zone back, and it is one of the 60 northern UTM codes exactly when
      the zone is between 1 and 60; a zone written with a minus sign lands below them. */
  lemma EpsgCodeOfZone(z: int)
    ensures EpsgCode(Str(IntString(z))) == Success(32600 + z)
    ensures 32601 <= 32600 + z <= 32660 <==> 1 <= z <= 60
    ensures -60 <= z <= -1 ==> 32540 <= 32600 + z <= 32599
  {
    var s := IntString(z);
    IntStringParses(z);
    PaddedStrip("", s);
    assert "" + s + "" == s;
    assert ParseInt(Str(s)) == Success(z);
  }

  /** What `'{}'.format(v)` writes for a converted value: a string as itself, None as
      "None"; the repr of a mapping or list is not modelled. */
  function Formatted(v: Value): Option<string>
  {
    match v
    case Str(s) => Some(s)
    case Null => Some("None")
    case _ => None
  }

  /** `'{}T{}'.format(acquisition_date, scene_center_time)`. */
  function SensingTime(date: Value, time: Value): Option<string>
  {
    match (Formatted(date), Formatted(time))
    case (Some(d), Some(t)) => Some(d + "T" + t)
    case _ => None
  }

  /** A date without a 'T' is what precedes the first 'T' of the label, the time what
      follows it. */
  lemma SensingTimeSplits(date: string, time: string)
    requires 'T' !in date
    ensures SensingTime(Str(date), Str(time)).Some?
    ensures var stamp := SensingTime(Str(date), Str(time)).value;
            && FindChar(stamp, 'T') == Some(|date|)
            && stamp[..|date|] == date && stamp[|date| + 1..] == time
  {
    var stamp := date + "T" + time;
    assert stamp[..|date|] == date;
    FindCharAt(stamp, 'T', |date|);
  }
}
