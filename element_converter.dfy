/** The conversion of a parsed XML element tree into nested dicts, lists and strings
    (`strip_tag`, `elem_to_dict` and the post-parse part of `xml2dict`). */
module ElementConverter {

  import opened Wrappers
  import opened Strings
  import opened PyValues
  import opened Paths

  /** One element of the parsed tree as ElementTree presents it: its tag (possibly
      `{uri}local`), its attributes in document order, its child elements, the text
      before the first child and the text after its own closing tag. */
  datatype Element = Element(
    tag: string,
    attrib: Entries<string>,
    children: seq<Element>,
    text: Option<string>,
    tail: Option<string>)

  /** `strip_tag`: `tag.split('}')[1]` when the tag contains a `}`, the tag itself otherwise. */
  function StripTag(tag: string): string
  {
    match FindChar(tag, '}')
    case None => tag
    case Some(i) =>
      var rest := tag[i + 1..];
      match FindChar(rest, '}')
      case None => rest
      case Some(j) => rest[..j]
  }

  /** The key an element is stored under: its tag, namespace-stripped when asked. */
  function Tag(e: Element, stripNs: bool): string
  {
    if stripNs then StripTag(e.tag) else e.tag
  }

  /** Python truthiness of `elem.text` / `elem.tail`: present and not empty. */
  predicate Truthy(s: Option<string>)
  {
    s.Some? && s.value != ""
  }

  /** `if text: text = text.strip()`, done only when stripping is on. */
  function Cleaned(s: Option<string>, strip: bool): Option<string>
  {
    if strip && Truthy(s) then Some(Strip(s.value)) else s
  }

  /** The dict after the attribute loop: `d['@' + key] = value` for each attribute in order. */
  function AttrEntries(attrib: Entries<string>): Entries<Value>
  {
    if attrib == [] then []
    else
      var last := attrib[|attrib| - 1];
      Put(AttrEntries(attrib[..|attrib| - 1]), "@" + last.0, Str(last.1))
  }

  /** One merge step for a child's converted value: a new tag is stored directly, an
      existing list is appended to, any other existing entry becomes a two-element list. */
  function AddChild(d: Entries<Value>, tag: string, value: Value): Entries<Value>
  {
    match Get(d, tag)
    case None => Put(d, tag, value)
    case Some(existing) =>
      if existing.List? then Put(d, tag, List(existing.items + [value]))
      else Put(d, tag, List([existing, value]))
  }

  /** The dict after the attributes and the first n children have been merged. */
  function Merged(e: Element, stripNs: bool, strip: bool, n: nat): Entries<Value>
    requires n <= |e.children|
    decreases e, n
  {
    if n == 0 then AttrEntries(e.attrib)
    else
      var child := e.children[n - 1];
      AddChild(Merged(e, stripNs, strip, n - 1), Tag(child, stripNs), ElementValue(child, stripNs, strip))
  }

  /** The last step of `elem_to_dict`: a non-empty tail goes under `#tail`; a dict that is
      then non-empty also receives a non-empty text under `#text`; an empty dict is
      replaced by the text, or by None when there is none. */
  function Finish(d: Entries<Value>, text: Option<string>, tail: Option<string>): Value
  {
    var d' := if Truthy(tail) then Put(d, "#tail", Str(tail.value)) else d;
    if d' != [] then
      if Truthy(text) then Dict(Put(d', "#text", Str(text.value))) else Dict(d')
    else if Truthy(text) then Str(text.value)
    else Null
  }

  /** The value `elem_to_dict(e)` stores under the element's own tag. */
  function ElementValue(e: Element, stripNs: bool, strip: bool): Value
    decreases e, |e.children| + 1
  {
    Finish(Merged(e, stripNs, strip, |e.children|), Cleaned(e.text, strip), Cleaned(e.tail, strip))
  }

  /** The attribute loop of `elem_to_dict`: `d['@' + key] = value` for each attribute. */
  method PrefixAttributes(attrib: Entries<string>) returns (d: Entries<Value>)
    ensures d == AttrEntries(attrib)
  {
    d := [];
    var i := 0;
    while i < |attrib|
      invariant 0 <= i <= |attrib|
      invariant d == AttrEntries(attrib[..i])
    {
      assert attrib[..i + 1][..i] == attrib[..i];
      d := Put(d, "@" + attrib[i].0, Str(attrib[i].1));
      i := i + 1;
    }
    assert attrib[..i] == attrib;
  }

  /** The `try`/`except` block of the child loop, as an explicit case split on the entry
      already stored under the tag: absent, a list, or any other value. */
  method MergeChild(d: Entries<Value>, tag: string, value: Value) returns (d': Entries<Value>)
    ensures d' == AddChild(d, tag, value)
  {
    var existing := Get(d, tag);
    if existing.None? {
      d' := Put(d, tag, value);                                  // KeyError: a new entry
    } else if existing.value.List? {
      d' := Put(d, tag, List(existing.value.items + [value]));   // append to the list
    } else {
      d' := Put(d, tag, List([existing.value, value]));          // AttributeError: make a list
    }
  }

  /** The end of `elem_to_dict`: strip text and tail when asked, record a non-empty tail
      under `#tail`, then either add `#text` to a non-empty dict or let the text (or None)
      stand for the whole element. */
  method TextAndTail(d0: Entries<Value>, text0: Option<string>, tail0: Option<string>, strip: bool)
    returns (value: Value)
    ensures value == Finish(d0, Cleaned(text0, strip), Cleaned(tail0, strip))
  {
    var d, text, tail := d0, text0, tail0;
    if strip {
      if text.Some? && text.value != "" {
        text := Some(Strip(text.value));
      }
      if tail.Some? && tail.value != "" {
        tail := Some(Strip(tail.value));
      }
    }
    if tail.Some? && tail.value != "" {
      d := Put(d, "#tail", Str(tail.value));
    }
    if d != [] {
      if text.Some? && text.value != "" {
        d := Put(d, "#text", Str(text.value));
      }
      value := Dict(d);
    } else {
      value := if text.Some? && text.value != "" then Str(text.value) else Null;
    }
  }

  /** `elem_to_dict(elem, strip_ns, strip)`: a dict with the single key `Tag(e, stripNs)`,
      built by filling a dict in place over the attributes and then the children. */
  method ElemToDict(e: Element, stripNs: bool, strip: bool) returns (r: Value)
    ensures r == Dict([(Tag(e, stripNs), ElementValue(e, stripNs, strip))])
    decreases e
  {
    var elemTag := if stripNs then StripTag(e.tag) else e.tag;
    var d := PrefixAttributes(e.attrib);
    var j := 0;
    while j < |e.children|
      invariant 0 <= j <= |e.children|
      invariant d == Merged(e, stripNs, strip, j)
    {
      var sub := e.children[j];
      var v := ElemToDict(sub, stripNs, strip);
      var tag := if stripNs then StripTag(sub.tag) else sub.tag;
      var value := Get(v.entries, tag).value;
      d := MergeChild(d, tag, value);
      j := j + 1;
    }
    var value := TextAndTail(d, e.text, e.tail, strip);
    r := Dict([(elemTag, value)]);
  }

  /** The part of `xml2dict` after parsing: convert with namespace stripping and text
      stripping on, then take the `espa_metadata` entry. */
  function Xml2Dict(root: Element): Result<Value, Error>
  {
    TakeMetadata(Dict([(Tag(root, true), ElementValue(root, true, true))]))
  }

  /** `meta = dict_out['espa_metadata']`, refusing an empty dict. */
  function TakeMetadata(out: Value): Result<Value, Error>
  {
    match Subscript(out, "espa_metadata")
    case Failure(err) => Failure(err)
    case Success(meta) =>
      if meta == Dict([]) then Failure(RuntimeError("empty xml file")) else Success(meta)
  }

  // ---------------------------------------------------------------------------
  // Namespace stripping

  /** A qualified tag `{uri}local` loses its namespace part. */
  lemma StripTagQualified(uri: string, local: string)
    requires '}' !in uri && '}' !in local
    ensures StripTag("{" + uri + "}" + local) == local
  {
    var tag := "{" + uri + "}" + local;
    var p := |uri| + 1;
    assert tag[..p] == "{" + uri;
    FindCharAt(tag, '}', p);
    assert tag[p + 1..] == local;
  }

  /** A tag without `}` is returned unchanged. */
  lemma StripTagPlain(tag: string)
    requires '}' !in tag
    ensures StripTag(tag) == tag
  {
  }

  /** The stripped tag never contains `}`, so stripping a second time changes nothing. */
  lemma StripTagIdempotent(tag: string)
    ensures '}' !in StripTag(tag)
    ensures StripTag(StripTag(tag)) == StripTag(tag)
  {
  }

  /** StripTag is `strip_tag` as written: the second piece of `tag.split('}')` when there is
      more than one piece, the tag otherwise. */
  lemma StripTagIsSplit(tag: string)
    ensures StripTag(tag) == if |Split(tag, '}')| > 1 then Split(tag, '}')[1] else tag
  {
    match FindChar(tag, '}')
    case None =>
      assert Split(tag, '}') == [tag];
    case Some(i) =>
      var rest := tag[i + 1..];
      assert Split(tag, '}') == [tag[..i]] + Split(rest, '}');
      match FindChar(rest, '}')
      case None =>
        assert Split(rest, '}') == [rest];
      case Some(j) =>
        assert Split(rest, '}') == [rest[..j]] + Split(rest[j + 1..], '}');
  }

  // ---------------------------------------------------------------------------
  // Shape of a converted value

  /** The attribute dict is empty exactly when there are no attributes. */
  lemma AttrEntriesEmpty(attrib: Entries<string>)
    ensures AttrEntries(attrib) == [] <==> attrib == []
  {
    if attrib != [] {
      var last := attrib[|attrib| - 1];
      PutShape(AttrEntries(attrib[..|attrib| - 1]), "@" + last.0, Str(last.1));
    }
  }

  /** Every merge step stores something under the child's tag. */
  lemma AddChildShape(d: Entries<Value>, tag: string, value: Value, key: string)
    ensures AddChild(d, tag, value) != []
    ensures key != tag ==> Get(AddChild(d, tag, value), key) == Get(d, key)
  {
    match Get(d, tag)
    case None =>
      PutShape(d, tag, value);
      GetPut(d, tag, value, key);
    case Some(existing) =>
      var stored := if existing.List? then List(existing.items + [value]) else List([existing, value]);
      PutShape(d, tag, stored);
      GetPut(d, tag, stored, key);
  }

  /** The dict under construction is empty only before any attribute or child was merged. */
  lemma {:induction false} MergedEmpty(e: Element, stripNs: bool, strip: bool, n: nat)
    requires n <= |e.children|
    ensures Merged(e, stripNs, strip, n) == [] <==> e.attrib == [] && n == 0
  {
    if n == 0 {
      AttrEntriesEmpty(e.attrib);
    } else {
      var child := e.children[n - 1];
      AddChildShape(Merged(e, stripNs, strip, n - 1), Tag(child, stripNs), ElementValue(child, stripNs, strip), "");
    }
  }

  /** A converted element is never a list and never the empty dict `{}`. */
  lemma ValueNeverListNorEmptyDict(e: Element, stripNs: bool, strip: bool)
    ensures !ElementValue(e, stripNs, strip).List?
    ensures ElementValue(e, stripNs, strip) != Dict([])
  {
    var d := Merged(e, stripNs, strip, |e.children|);
    var tail := Cleaned(e.tail, strip);
    var d' := if Truthy(tail) then Put(d, "#tail", Str(tail.value)) else d;
    var text := Cleaned(e.text, strip);
    if d' != [] && Truthy(text) {
      PutShape(d', "#text", Str(text.value));
    }
  }

  /** An element converts to a dict exactly when it has an attribute, a child, or a tail
      that is non-empty after the optional stripping. */
  lemma DictIff(e: Element, stripNs: bool, strip: bool)
    ensures ElementValue(e, stripNs, strip).Dict?
        <==> e.attrib != [] || e.children != [] || Truthy(Cleaned(e.tail, strip))
  {
    var d := Merged(e, stripNs, strip, |e.children|);
    MergedEmpty(e, stripNs, strip, |e.children|);
    var tail := Cleaned(e.tail, strip);
    if Truthy(tail) {
      PutShape(d, "#tail", Str(tail.value));
    }
  }

  /** An element with no attributes, no children and no non-empty tail stands for its
      text: the (stripped) text when it is non-empty, None otherwise. With stripping off
      the text is kept exactly as parsed. */
  lemma LeafIsText(e: Element, stripNs: bool, strip: bool)
    requires e.attrib == [] && e.children == [] && !Truthy(Cleaned(e.tail, strip))
    ensures ElementValue(e, stripNs, strip)
         == if Truthy(Cleaned(e.text, strip)) then Str(Cleaned(e.text, strip).value) else Null
    ensures !strip ==> Cleaned(e.text, strip) == e.text
  {
    MergedEmpty(e, stripNs, strip, 0);
  }

  /** With stripping on, such an element becomes None exactly when its text is absent or
      all whitespace, and otherwise the stripped text. */
  lemma StrippedLeafIsNoneIffBlank(e: Element, stripNs: bool)
    requires e.attrib == [] && e.children == [] && !Truthy(Cleaned(e.tail, true))
    ensures ElementValue(e, stripNs, true) == Null
        <==> e.text.None? || forall k :: 0 <= k < |e.text.value| ==> IsSpace(e.text.value[k])
    ensures ElementValue(e, stripNs, true) != Null ==> ElementValue(e, stripNs, true) == Str(Strip(e.text.value))
  {
    LeafIsText(e, stripNs, true);
    if e.text.Some? {
      StripEmptyIffBlank(e.text.value);
    }
  }

  // ---------------------------------------------------------------------------
  // Attributes

  /** Attribute k=v is stored as `'@' + k` with the value unchanged. */
  lemma {:induction false} AttrEntriesGet(attrib: Entries<string>, i: nat)
    requires DistinctKeys(attrib) && i < |attrib|
    ensures Get(AttrEntries(attrib), "@" + attrib[i].0) == Some(Str(attrib[i].1))
  {
    var n := |attrib|;
    var front := attrib[..n - 1];
    var last := attrib[n - 1];
    GetPut(AttrEntries(front), "@" + last.0, Str(last.1), "@" + attrib[i].0);
    if i < n - 1 {
      assert attrib[i].0 != last.0;
      assert "@" + attrib[i].0 != "@" + last.0 by {
        assert ("@" + attrib[i].0)[1..] == attrib[i].0;
        assert ("@" + last.0)[1..] == last.0;
      }
      assert DistinctKeys(front);
      assert front[i] == attrib[i];
      AttrEntriesGet(front, i);
    }
  }

  /** Prefixing `'@'` keeps distinct names distinct. */
  lemma PrefixedDistinct(a: string, b: string)
    ensures a != b ==> "@" + a != "@" + b
  {
    assert ("@" + a)[1..] == a && ("@" + b)[1..] == b;
  }

  /** With distinct attribute names, the attribute dict holds one `'@' + k` entry per
      attribute, in document order. */
  lemma {:induction false} AttrEntriesInOrder(attrib: Entries<string>)
    requires DistinctKeys(attrib)
    ensures AttrEntries(attrib)
         == seq(|attrib|, i requires 0 <= i < |attrib| => ("@" + attrib[i].0, Str(attrib[i].1)))
    decreases |attrib|
  {
    if attrib != [] {
      var n := |attrib|;
      var front := attrib[..n - 1];
      var last := attrib[n - 1];
      var key := "@" + last.0;
      assert DistinctKeys(front);
      AttrEntriesInOrder(front);
      var d := AttrEntries(front);
      forall i | 0 <= i < n - 1
        ensures d[i].0 != key
      {
        PrefixedDistinct(attrib[i].0, last.0);
      }
      KeysAre(d, key);
      PutLength(d, key, Str(last.1));
      assert AttrEntries(attrib) == d + [(key, Str(last.1))];
    }
  }

  /** A key that is not `'@' + k` for any attribute k is absent from the attribute dict. */
  lemma {:induction false} AttrEntriesGetOther(attrib: Entries<string>, key: string)
    requires forall i :: 0 <= i < |attrib| ==> "@" + attrib[i].0 != key
    ensures Get(AttrEntries(attrib), key) == None
  {
    if attrib != [] {
      var n := |attrib|;
      var front := attrib[..n - 1];
      var last := attrib[n - 1];
      GetPut(AttrEntries(front), "@" + last.0, Str(last.1), key);
      assert forall i :: 0 <= i < |front| ==> front[i] == attrib[i];
      AttrEntriesGetOther(front, key);
    }
  }

  /** Merging children leaves alone every key that is no child's tag. */
  lemma {:induction false} MergedKeeps(e: Element, stripNs: bool, strip: bool, n: nat, key: string)
    requires n <= |e.children|
    requires forall i :: 0 <= i < n ==> Tag(e.children[i], stripNs) != key
    ensures Get(Merged(e, stripNs, strip, n), key) == Get(AttrEntries(e.attrib), key)
  {
    if n > 0 {
      var child := e.children[n - 1];
      AddChildShape(Merged(e, stripNs, strip, n - 1), Tag(child, stripNs), ElementValue(child, stripNs, strip), key);
      MergedKeeps(e, stripNs, strip, n - 1, key);
    }
  }

  /** The final step leaves every key other than `#tail` and `#text` as it was, and yields
      a dict whenever the dict it starts from is non-empty. */
  lemma FinishKeeps(d: Entries<Value>, text: Option<string>, tail: Option<string>, key: string)
    requires key != "#tail" && key != "#text"
    ensures d != [] ==> Finish(d, text, tail).Dict?
    ensures Finish(d, text, tail).Dict? ==> Get(Finish(d, text, tail).entries, key) == Get(d, key)
  {
    var d' := if Truthy(tail) then Put(d, "#tail", Str(tail.value)) else d;
    if Truthy(tail) {
      PutShape(d, "#tail", Str(tail.value));
      GetPut(d, "#tail", Str(tail.value), key);
    }
    if Truthy(text) {
      GetPut(d', "#text", Str(text.value), key);
    }
  }

  /** Every attribute k=v of an element appears in its dict under `'@' + k` with value v
      (unless a child's tag is that very key). */
  lemma AttributesArePrefixed(e: Element, stripNs: bool, strip: bool, i: nat)
    requires DistinctKeys(e.attrib) && i < |e.attrib|
    requires forall c :: c in e.children ==> Tag(c, stripNs) != "@" + e.attrib[i].0
    ensures ElementValue(e, stripNs, strip).Dict?
    ensures Get(ElementValue(e, stripNs, strip).entries, "@" + e.attrib[i].0) == Some(Str(e.attrib[i].1))
  {
    var key := "@" + e.attrib[i].0;
    assert key[0] == '@';
    assert key != "#tail" && key != "#text" by {
      assert "#tail"[0] == '#' && "#text"[0] == '#';
    }
    AttrEntriesGet(e.attrib, i);
    assert forall j :: 0 <= j < |e.children| ==> e.children[j] in e.children;
    MergedKeeps(e, stripNs, strip, |e.children|, key);
    MergedEmpty(e, stripNs, strip, |e.children|);
    FinishKeeps(Merged(e, stripNs, strip, |e.children|), Cleaned(e.text, strip), Cleaned(e.tail, strip), key);
  }

  // ---------------------------------------------------------------------------
  // List promotion of repeated children

  /** The converted values of the first n children whose tag is key, in document order. */
  function Occurrences(e: Element, stripNs: bool, strip: bool, key: string, n: nat): seq<Value>
    requires n <= |e.children|
  {
    if n == 0 then []
    else
      var child := e.children[n - 1];
      Occurrences(e, stripNs, strip, key, n - 1)
        + (if Tag(child, stripNs) == key then [ElementValue(child, stripNs, strip)] else [])
  }

  /** How the occurrences of a tag are stored: nothing, the single value, or a list. */
  function Promoted(vs: seq<Value>): Option<Value>
  {
    if |vs| == 0 then None else if |vs| == 1 then Some(vs[0]) else Some(List(vs))
  }

  /** After n children, a tag that is no attribute key holds exactly its promoted occurrences. */
  lemma {:induction false} MergedPromotes(e: Element, stripNs: bool, strip: bool, key: string, n: nat)
    requires n <= |e.children|
    requires Get(AttrEntries(e.attrib), key) == None
    ensures Get(Merged(e, stripNs, strip, n), key) == Promoted(Occurrences(e, stripNs, strip, key, n))
  {
    if n > 0 {
      MergedPromotes(e, stripNs, strip, key, n - 1);
      OccurrencesNotLists(e, stripNs, strip, key, n - 1);
      var child := e.children[n - 1];
      var tag, value := Tag(child, stripNs), ElementValue(child, stripNs, strip);
      var before := Occurrences(e, stripNs, strip, key, n - 1);
      var d := Merged(e, stripNs, strip, n - 1);
      assert Merged(e, stripNs, strip, n) == AddChild(d, tag, value);
      assert Occurrences(e, stripNs, strip, key, n) == before + if tag == key then [value] else [];
      MergeStepPromotes(d, tag, value, key, before);
    }
  }

  /** One merge step extends the promoted occurrences of a tag when the child has that tag,
      and leaves them alone otherwise. */
  lemma MergeStepPromotes(d: Entries<Value>, tag: string, value: Value, key: string, before: seq<Value>)
    requires Get(d, key) == Promoted(before)
    requires forall i :: 0 <= i < |before| ==> !before[i].List?
    ensures Get(AddChild(d, tag, value), key) == Promoted(before + if tag == key then [value] else [])
  {
    if tag == key {
      AddChildPromotes(d, tag, value, before);
    } else {
      assert before + [] == before;
      AddChildShape(d, tag, value, key);
    }
  }

  /** One merge step under a tag extends the promoted occurrences of that tag by the new value. */
  lemma AddChildPromotes(d: Entries<Value>, key: string, value: Value, before: seq<Value>)
    requires Get(d, key) == Promoted(before)
    requires |before| == 1 ==> !before[0].List?
    ensures Get(AddChild(d, key, value), key) == Promoted(before + [value])
  {
    match Get(d, key)
    case None =>
      GetPut(d, key, value, key);
    case Some(existing) =>
      var stored := if existing.List? then List(existing.items + [value]) else List([existing, value]);
      if |before| == 1 {
        assert [existing, value] == before + [value];
      }
      GetPut(d, key, stored, key);
  }

  /** No occurrence is a list, as no converted element is one. */
  lemma {:induction false} OccurrencesNotLists(e: Element, stripNs: bool, strip: bool, key: string, n: nat)
    requires n <= |e.children|
    ensures forall i :: 0 <= i < |Occurrences(e, stripNs, strip, key, n)| ==> !Occurrences(e, stripNs, strip, key, n)[i].List?
  {
    if n > 0 {
      OccurrencesNotLists(e, stripNs, strip, key, n - 1);
      var child := e.children[n - 1];
      ValueNeverListNorEmptyDict(child, stripNs, strip);
    }
  }

  /** List promotion: a child tag seen once is stored as its converted value (never a
      one-element list); seen k >= 2 times it is stored as the list of the k converted
      values in document order; never seen, it is absent. */
  lemma RepeatedChildrenPromoted(e: Element, stripNs: bool, strip: bool, key: string)
    requires forall i :: 0 <= i < |e.attrib| ==> "@" + e.attrib[i].0 != key
    requires key != "#tail" && key != "#text"
    ensures var occ := Occurrences(e, stripNs, strip, key, |e.children|);
            && (|occ| == 0 ==> !ElementValue(e, stripNs, strip).Dict?
                               || Get(ElementValue(e, stripNs, strip).entries, key) == None)
            && (|occ| == 1 ==> ElementValue(e, stripNs, strip).Dict? && !occ[0].List?
                               && Get(ElementValue(e, stripNs, strip).entries, key) == Some(occ[0]))
            && (|occ| >= 2 ==> ElementValue(e, stripNs, strip).Dict?
                               && Get(ElementValue(e, stripNs, strip).entries, key) == Some(List(occ)))
  {
    AttrEntriesGetOther(e.attrib, key);
    var n := |e.children|;
    MergedPromotes(e, stripNs, strip, key, n);
    var d := Merged(e, stripNs, strip, n);
    var occ := Occurrences(e, stripNs, strip, key, n);
    FinishKeeps(d, Cleaned(e.text, strip), Cleaned(e.tail, strip), key);
    if |occ| > 0 {
      MergedEmpty(e, stripNs, strip, n);
    }
    OccurrencesNotLists(e, stripNs, strip, key, n);
  }

  // ---------------------------------------------------------------------------
  // Text and tail

  /** A non-empty (stripped) tail is recorded under `#tail` in the element's own dict. */
  lemma TailRecorded(e: Element, stripNs: bool, strip: bool)
    requires Truthy(Cleaned(e.tail, strip))
    ensures ElementValue(e, stripNs, strip).Dict?
    ensures Get(ElementValue(e, stripNs, strip).entries, "#tail") == Some(Str(Cleaned(e.tail, strip).value))
  {
    var d := Merged(e, stripNs, strip, |e.children|);
    var tail := Cleaned(e.tail, strip);
    var text := Cleaned(e.text, strip);
    PutShape(d, "#tail", Str(tail.value));
    GetPut(d, "#tail", Str(tail.value), "#tail");
    if Truthy(text) {
      GetPut(Put(d, "#tail", Str(tail.value)), "#text", Str(text.value), "#tail");
    }
  }

  /** `#text` is present exactly when the (stripped) text is non-empty and the dict already
      had an attribute, a child or a tail; it then holds that text. */
  lemma TextRecorded(e: Element, stripNs: bool, strip: bool)
    requires forall c :: c in e.children ==> Tag(c, stripNs) != "#text"
    ensures var v := ElementValue(e, stripNs, strip);
            (v.Dict? && Get(v.entries, "#text").Some?)
            <==> Truthy(Cleaned(e.text, strip))
                 && (e.attrib != [] || e.children != [] || Truthy(Cleaned(e.tail, strip)))
    ensures var v := ElementValue(e, stripNs, strip);
            v.Dict? && Get(v.entries, "#text").Some? ==> Get(v.entries, "#text") == Some(Str(Cleaned(e.text, strip).value))
  {
    var n := |e.children|;
    var d := Merged(e, stripNs, strip, n);
    var tail := Cleaned(e.tail, strip);
    var text := Cleaned(e.text, strip);
    MergedEmpty(e, stripNs, strip, n);
    forall i | 0 <= i < |e.attrib| ensures "@" + e.attrib[i].0 != "#text" {
      assert ("@" + e.attrib[i].0)[0] == '@';
    }
    AttrEntriesGetOther(e.attrib, "#text");
    assert forall j :: 0 <= j < n ==> e.children[j] in e.children;
    MergedKeeps(e, stripNs, strip, n, "#text");
    var d' := if Truthy(tail) then Put(d, "#tail", Str(tail.value)) else d;
    if Truthy(tail) {
      PutShape(d, "#tail", Str(tail.value));
      GetPut(d, "#tail", Str(tail.value), "#text");
    }
    if Truthy(text) {
      GetPut(d', "#text", Str(text.value), "#text");
    }
  }

  // ---------------------------------------------------------------------------
  // xml2dict

  /** The `'empty xml file'` guard of `xml2dict` can never fire: the converter never
      produces `{}`. The lookup succeeds exactly when the stripped root tag is
      `espa_metadata`, and then yields the root's converted value. */
  lemma Xml2DictNeverEmpty(root: Element)
    ensures Xml2Dict(root) != Failure(RuntimeError("empty xml file"))
    ensures Xml2Dict(root).Success? <==> StripTag(root.tag) == "espa_metadata"
    ensures Xml2Dict(root).Success? ==> Xml2Dict(root).value == ElementValue(root, true, true)
    ensures Xml2Dict(root).Failure? ==> Xml2Dict(root).error == KeyError("espa_metadata")
  {
    ValueNeverListNorEmptyDict(root, true, true);
    TakeMetadataOfOneKey(StripTag(root.tag), ElementValue(root, true, true));
  }

  /** Taking the metadata out of a one-key dict whose value is not `{}`. */
  lemma TakeMetadataOfOneKey(tag: string, v: Value)
    requires v != Dict([])
    ensures TakeMetadata(Dict([(tag, v)]))
         == if tag == "espa_metadata" then Success(v) else Failure(KeyError("espa_metadata"))
  {
    var entries := [(tag, v)];
    assert entries[1..] == [];
    assert Get(entries, "espa_metadata") == if tag == "espa_metadata" then Some(v) else None;
  }
}
