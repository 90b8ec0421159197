/**
 * UriQueryStringParameterCollection: a multi-valued parameter collection, rendered as
 * urlencode(key)=urlencode(AsString(value)) pairs joined with '&'.
 */
module QueryString {
  import opened Wrappers
  import opened Strings
  import Json
  import opened UrlEncoding

  /** A DateTime, kept opaque: the ISO 8601 round-trip text System.Text.Json writes for it. */
  datatype DateTime = DateTime(iso: string)

  /** A JSON number literal: a sign or a digit first, then digits, sign, point and exponent characters. */
  predicate IsNumberLiteral(s: string) {
    |s| > 0 && (s[0] == '-' || IsDigit(s[0]))
    && forall i :: 0 <= i < |s| ==> IsDigit(s[i]) || s[i] in "+-.eE"
  }

  type NumberLiteral = s: string | IsNumberLiteral(s) witness "0"

  /** A Double, kept opaque: the JSON number literal System.Text.Json writes for it. */
  datatype Double = Double(literal: NumberLiteral)

  /** The objects the client adds to a collection: strings, timestamps and doubles. */
  datatype Value = Str(s: string) | Time(t: DateTime) | Num(d: Double)

  /** JsonSerializer.Serialize(obj, obj.GetType()). */
  function Serialize(v: Value): (json: string)
    ensures |json| > 0
    ensures json[0] == '"' <==> !v.Num?
    ensures v.Str? ==> Json.Unquote(json) == Some(v.s)
    ensures v.Time? ==> Json.Unquote(json) == Some(v.t.iso)
  {
    match v
    case Str(s) => Json.UnquoteQuote(s); Json.Quote(s)
    case Time(t) => Json.UnquoteQuote(t.iso); Json.Quote(t.iso)
    case Num(d) => d.literal
  }

  /** The bare text of a value: strings and timestamps without JSON quoting, numbers as written. */
  function Bare(v: Value): string {
    match v
    case Str(s) => s
    case Time(t) => t.iso
    case Num(d) => d.literal
  }

  /**
   * AsString: the serialised value, and when that starts with a quote, the string
   * the JSON literal stands for.
   */
  function AsString(v: Value): (text: string)
    ensures text == Bare(v)
    ensures 0 < |Serialize(v)| && Serialize(v)[0] != '"' ==> text == Serialize(v)
  {
    var serialized := Serialize(v);
    if serialized[0] == '"' then
      Json.Unquote(serialized).value
    else serialized
  }

  /** One rendered pair. */
  function Segment(p: (string, Value)): string {
    UrlEncode(p.0) + "=" + UrlEncode(AsString(p.1))
  }

  function Segments(pairs: seq<(string, Value)>): (segs: seq<string>)
    ensures |segs| == |pairs|
    ensures forall i :: 0 <= i < |pairs| ==> segs[i] == Segment(pairs[i])
  {
    seq(|pairs|, i requires 0 <= i < |pairs| => Segment(pairs[i]))
  }

  /** The query string for a list of pairs, as UriQueryStringParameterCollection.ToString renders it. */
  function Render(pairs: seq<(string, Value)>): (q: string)
    ensures q == [] <==> pairs == []
  {
    SegmentsNonEmpty(pairs);
    JoinEmpty(Segments(pairs), '&');
    Join(Segments(pairs), '&')
  }

  lemma SegmentsNonEmpty(pairs: seq<(string, Value)>)
    ensures forall i :: 0 <= i < |pairs| ==> Segments(pairs)[i] != []
  {
    forall i | 0 <= i < |pairs| ensures Segments(pairs)[i] != [] {
      assert |Segments(pairs)[i]| >= 1;
    }
  }

  /** The pairs with their values reduced to the text a server reads back. */
  function Canonical(pairs: seq<(string, Value)>): (r: seq<(string, string)>)
    ensures |r| == |pairs|
    ensures forall i :: 0 <= i < |pairs| ==> r[i] == (pairs[i].0, AsString(pairs[i].1))
  {
    seq(|pairs|, i requires 0 <= i < |pairs| => (pairs[i].0, AsString(pairs[i].1)))
  }

  /** Decodes one form-encoded component back to text. */
  function DecodeComponent(c: string): Option<string> {
    match UrlDecode(c)
    case None => None
    case Some(bs) => Utf8Decode(bs)
  }

  /** Reads key=value back. */
  function ParseSegment(seg: string): Option<(string, string)> {
    var parts := Split(seg, '=');
    if |parts| != 2 then None
    else
      match (DecodeComponent(parts[0]), DecodeComponent(parts[1]))
      case (Some(k), Some(v)) => Some((k, v))
      case _ => None
  }

  function ParseSegments(segs: seq<string>): Option<seq<(string, string)>> {
    if segs == [] then Some([])
    else
      match (ParseSegment(segs[0]), ParseSegments(segs[1..]))
      case (Some(p), Some(ps)) => Some([p] + ps)
      case _ => None
  }

  /** A form/query-string reader: split on '&', then on '=', then decode both sides. */
  function ParseQuery(q: string): Option<seq<(string, string)>> {
    if q == [] then Some([]) else ParseSegments(Split(q, '&'))
  }

  lemma SegmentShape(p: (string, Value))
    ensures '&' !in Segment(p) && '?' !in Segment(p) && Segment(p) != []
    ensures ParseSegment(Segment(p)) == Some((p.0, AsString(p.1)))
  {
    var k, v := UrlEncode(p.0), UrlEncode(AsString(p.1));
    NoSeparators(p.0);
    NoSeparators(AsString(p.1));
    SplitAtSeparator(k, '=', v);
    SplitWithoutSeparator(v, '=');
    UrlRoundTrip(p.0);
    UrlRoundTrip(AsString(p.1));
  }

  lemma ParseFirstSegment(pairs: seq<(string, Value)>, seg: string, p: (string, string))
    requires pairs != [] && seg == Segments(pairs)[0] && p == Canonical(pairs)[0]
    ensures ParseSegment(seg) == Some(p)
  {
    SegmentShape(pairs[0]);
  }

  lemma ParseSegmentsCons(segs: seq<string>, ps: seq<(string, string)>)
    requires segs != [] && ps != []
    requires ParseSegment(segs[0]) == Some(ps[0]) && ParseSegments(segs[1..]) == Some(ps[1..])
    ensures ParseSegments(segs) == Some(ps)
  {
    assert [ps[0]] + ps[1..] == ps;
  }

  lemma SegmentsTail(pairs: seq<(string, Value)>)
    requires pairs != []
    ensures Segments(pairs)[1..] == Segments(pairs[1..])
    ensures Canonical(pairs)[1..] == Canonical(pairs[1..])
  {
    var rest := pairs[1..];
    forall i | 0 <= i < |rest| ensures Segments(pairs)[1..][i] == Segments(rest)[i] {
      assert rest[i] == pairs[i + 1];
    }
    forall i | 0 <= i < |rest| ensures Canonical(pairs)[1..][i] == Canonical(rest)[i] {
      assert rest[i] == pairs[i + 1];
    }
  }

  lemma {:induction false} ParseSegmentsOfPairs(pairs: seq<(string, Value)>)
    ensures ParseSegments(Segments(pairs)) == Some(Canonical(pairs))
  {
    if pairs != [] {
      var segs, ps := Segments(pairs), Canonical(pairs);
      ParseFirstSegment(pairs, segs[0], ps[0]);
      ParseSegmentsOfPairs(pairs[1..]);
      SegmentsTail(pairs);
      ParseSegmentsCons(segs, ps);
    }
  }

  /** The rendering never holds '?', so it can follow one in a URL. */
  lemma RenderHasNoQuestionMark(pairs: seq<(string, Value)>)
    ensures '?' !in Render(pairs)
  {
    forall i | 0 <= i < |pairs| ensures '?' !in Segments(pairs)[i] {
      SegmentShape(pairs[i]);
    }
    JoinWithoutSeparatorIn(Segments(pairs), '?', '&');
  }

  /**
   * Splitting the rendering on '&' and then '=' and decoding both sides gives back
   * every pair, in order, with its value as AsString text; no pairs render as "".
   */
  lemma RenderRoundTrip(pairs: seq<(string, Value)>)
    ensures Render(pairs) == [] <==> pairs == []
    ensures ParseQuery(Render(pairs)) == Some(Canonical(pairs))
    ensures pairs != [] ==> |Split(Render(pairs), '&')| == |pairs|
  {
    var segs := Segments(pairs);
    forall i | 0 <= i < |segs| ensures '&' !in segs[i] && segs[i] != [] {
      SegmentShape(pairs[i]);
    }
    JoinEmpty(segs, '&');
    if pairs != [] {
      SplitJoin(segs, '&');
      ParseSegmentsOfPairs(pairs);
    }
  }

  /** The values of key in a pair list, in list order. */
  function ValuesOf(pairs: seq<(string, Value)>, key: string): (vs: seq<Value>)
    ensures |vs| <= |pairs|
  {
    if pairs == [] then []
    else (if pairs[0].0 == key then [pairs[0].1] else []) + ValuesOf(pairs[1..], key)
  }

  lemma {:induction false} ValuesOfAppend(a: seq<(string, Value)>, b: seq<(string, Value)>, key: string)
    ensures ValuesOf(a + b, key) == ValuesOf(a, key) + ValuesOf(b, key)
  {
    if a == [] {
      assert a + b == b;
    } else {
      var head := if a[0].0 == key then [a[0].1] else [];
      assert (a + b)[0] == a[0] && (a + b)[1..] == a[1..] + b;
      assert ValuesOf(a + b, key) == head + ValuesOf(a[1..] + b, key);
      ValuesOfAppend(a[1..], b, key);
      assert ValuesOf(a, key) == head + ValuesOf(a[1..], key);
      assert head + (ValuesOf(a[1..], key) + ValuesOf(b, key)) == (head + ValuesOf(a[1..], key)) + ValuesOf(b, key);
    }
  }

  /** A key has values in a pair list exactly when some pair has that key. */
  lemma {:induction false} ValuesOfNonEmpty(pairs: seq<(string, Value)>, key: string)
    ensures ValuesOf(pairs, key) != [] <==> exists i :: 0 <= i < |pairs| && pairs[i].0 == key
  {
    if pairs != [] {
      ValuesOfNonEmpty(pairs[1..], key);
      if pairs[0].0 != key && exists i :: 0 <= i < |pairs| && pairs[i].0 == key {
        var i :| 0 <= i < |pairs| && pairs[i].0 == key;
        assert pairs[1..][i - 1].0 == key;
      }
      if exists i :: 0 <= i < |pairs[1..]| && pairs[1..][i].0 == key {
        var i :| 0 <= i < |pairs[1..]| && pairs[1..][i].0 == key;
        assert pairs[i + 1].0 == key;
      }
    }
  }

  /** The stored values repeated once per value, key by key: the pair enumerator. */
  function Flatten(keys: seq<string>, values: map<string, seq<Value>>): seq<(string, Value)>
    requires forall k :: k in keys ==> k in values
  {
    if keys == [] then []
    else
      var k := keys[0];
      Run(k, values[k]) + Flatten(keys[1..], values)
  }

  /** Count: the sum of the lengths of the value lists. */
  function TotalCount(keys: seq<string>, values: map<string, seq<Value>>): nat
    requires forall k :: k in keys ==> k in values
  {
    if keys == [] then 0 else |values[keys[0]]| + TotalCount(keys[1..], values)
  }

  predicate Distinct(keys: seq<string>) {
    forall i, j :: 0 <= i < j < |keys| ==> keys[i] != keys[j]
  }

  lemma {:induction false} FlattenCount(keys: seq<string>, values: map<string, seq<Value>>)
    requires forall k :: k in keys ==> k in values
    ensures |Flatten(keys, values)| == TotalCount(keys, values)
  {
    if keys != [] {
      FlattenCount(keys[1..], values);
    }
  }

  lemma ValuesOfRun(k: string, vs: seq<Value>, key: string)
    ensures ValuesOf(Run(k, vs), key) == if k == key then vs else []
    decreases |vs|
  {
    var run := Run(k, vs);
    if vs != [] {
      assert run[1..] == Run(k, vs[1..]);
      ValuesOfRun(k, vs[1..], key);
      assert [vs[0]] + vs[1..] == vs;
    }
  }

  /** The enumerated pairs of a key are its stored list, in order; an absent key has none. */
  lemma {:induction false} FlattenValuesOf(keys: seq<string>, values: map<string, seq<Value>>, key: string)
    requires forall k :: k in keys ==> k in values
    requires Distinct(keys)
    ensures ValuesOf(Flatten(keys, values), key) == if key in keys then values[key] else []
  {
    if keys != [] {
      var k := keys[0];
      var run := Run(k, values[k]);
      ValuesOfAppend(run, Flatten(keys[1..], values), key);
      ValuesOfRun(k, values[k], key);
      assert Distinct(keys[1..]) by {
        forall i, j | 0 <= i < j < |keys[1..]| ensures keys[1..][i] != keys[1..][j] {
          assert keys[1..][i] == keys[i + 1] && keys[1..][j] == keys[j + 1];
        }
      }
      FlattenValuesOf(keys[1..], values, key);
      if k == key {
        assert key !in keys[1..] by {
          forall i | 0 <= i < |keys[1..]| ensures keys[1..][i] != key {
            assert keys[1..][i] == keys[i + 1];
          }
        }
      } else {
        assert key in keys <==> key in keys[1..] by {
          assert keys == [k] + keys[1..];
        }
      }
    }
  }

  lemma {:induction false} TotalCountSameLists(keys: seq<string>, v1: map<string, seq<Value>>, v2: map<string, seq<Value>>)
    requires forall k :: k in keys ==> k in v1 && k in v2 && |v1[k]| == |v2[k]|
    ensures TotalCount(keys, v1) == TotalCount(keys, v2)
  {
    if keys != [] {
      TotalCountSameLists(keys[1..], v1, v2);
    }
  }

  lemma {:induction false} TotalCountAppend(keys: seq<string>, k: string, values: map<string, seq<Value>>)
    requires forall x :: x in keys + [k] ==> x in values
    ensures TotalCount(keys + [k], values) == TotalCount(keys, values) + |values[k]|
  {
    if keys != [] {
      assert (keys + [k])[1..] == keys[1..] + [k];
      TotalCountAppend(keys[1..], k, values);
    }
  }

  lemma {:induction false} TotalCountGrow(keys: seq<string>, values: map<string, seq<Value>>, key: string, v: Value)
    requires forall k :: k in keys ==> k in values
    requires Distinct(keys) && key in keys
    ensures TotalCount(keys, values[key := values[key] + [v]]) == TotalCount(keys, values) + 1
  {
    var values' := values[key := values[key] + [v]];
    assert Distinct(keys[1..]) by {
      forall i, j | 0 <= i < j < |keys[1..]| ensures keys[1..][i] != keys[1..][j] {
        assert keys[1..][i] == keys[i + 1] && keys[1..][j] == keys[j + 1];
      }
    }
    if keys[0] == key {
      assert key !in keys[1..] by {
        forall i | 0 <= i < |keys[1..]| ensures keys[1..][i] != key {
          assert keys[1..][i] == keys[i + 1];
        }
      }
      TotalCountSameLists(keys[1..], values', values);
    } else {
      assert key in keys[1..] by {
        assert keys == [keys[0]] + keys[1..];
      }
      TotalCountGrow(keys[1..], values, key, v);
    }
  }

  /**
   * Adding a value raises the total count by exactly one, whether the key is new
   * (a new one-element list after the existing keys) or not (one more value at the end of its list).
   */
  lemma CountAfterAdd(keys: seq<string>, values: map<string, seq<Value>>, key: string, v: Value)
    requires forall k :: k in keys ==> k in values
    requires Distinct(keys)
    ensures key !in keys ==>
      TotalCount(keys + [key], values[key := [v]]) == TotalCount(keys, values) + 1
    ensures key in keys ==>
      TotalCount(keys, values[key := values[key] + [v]]) == TotalCount(keys, values) + 1
  {
    if key !in keys {
      var values' := values[key := [v]];
      TotalCountAppend(keys, key, values');
      TotalCountSameLists(keys, values', values);
    } else {
      TotalCountGrow(keys, values, key, v);
    }
  }

  function Run(k: string, vs: seq<Value>): (ps: seq<(string, Value)>)
    ensures |ps| == |vs|
  {
    seq(|vs|, j requires 0 <= j < |vs| => (k, vs[j]))
  }

  lemma {:induction false} FlattenAgree(keys: seq<string>, v1: map<string, seq<Value>>, v2: map<string, seq<Value>>)
    requires forall k :: k in keys ==> k in v1 && k in v2 && v1[k] == v2[k]
    ensures Flatten(keys, v1) == Flatten(keys, v2)
  {
    if keys != [] {
      FlattenAgree(keys[1..], v1, v2);
    }
  }

  lemma {:induction false} FlattenSnoc(keys: seq<string>, k: string, values: map<string, seq<Value>>)
    requires forall x :: x in keys + [k] ==> x in values
    ensures Flatten(keys + [k], values) == Flatten(keys, values) + Run(k, values[k])
  {
    if keys == [] {
      assert [] + [k] == [k];
    } else {
      assert (keys + [k])[0] == keys[0] && (keys + [k])[1..] == keys[1..] + [k];
      FlattenSnoc(keys[1..], k, values);
    }
  }

  /**
   * Adding under a new key, or under the most recently created key, puts the new
   * pair at the end of the enumeration.
   */
  lemma FlattenAfterAdd(keys: seq<string>, values: map<string, seq<Value>>, key: string, v: Value)
    requires forall k :: k in keys ==> k in values
    requires Distinct(keys)
    ensures key !in keys ==>
      Flatten(keys + [key], values[key := [v]]) == Flatten(keys, values) + [(key, v)]
    ensures keys != [] && keys[|keys| - 1] == key ==>
      Flatten(keys, values[key := values[key] + [v]]) == Flatten(keys, values) + [(key, v)]
  {
    if key !in keys {
      var values' := values[key := [v]];
      FlattenSnoc(keys, key, values');
      FlattenAgree(keys, values', values);
      assert Run(key, [v]) == [(key, v)];
    }
    if keys != [] && keys[|keys| - 1] == key {
      var ks := keys[..|keys| - 1];
      var values' := values[key := values[key] + [v]];
      assert keys == ks + [key];
      assert key !in ks by {
        forall i | 0 <= i < |ks| ensures ks[i] != key {
          assert ks[i] == keys[i];
        }
      }
      FlattenSnoc(ks, key, values');
      FlattenSnoc(ks, key, values);
      FlattenAgree(ks, values', values);
      assert Run(key, values[key] + [v]) == Run(key, values[key]) + [(key, v)];
    }
  }

  /** Distinct keys, exactly the keys of the map, each with at least one value. */
  ghost predicate Stored(keys: seq<string>, values: map<string, seq<Value>>) {
    && Distinct(keys)
    && (forall k :: k in keys <==> k in values)
    && (forall k :: k in values ==> |values[k]| > 0)
  }

  /** Adding keeps the keys distinct, each with values. */
  lemma StoredAfterAdd(keys: seq<string>, values: map<string, seq<Value>>, key: string, v: Value)
    requires Stored(keys, values)
    ensures key in values ==> Stored(keys, values[key := values[key] + [v]])
    ensures key !in values ==> Stored(keys + [key], values[key := [v]])
  {
    if key !in values {
      assert Distinct(keys + [key]) by {
        forall i, j | 0 <= i < j < |keys + [key]| ensures (keys + [key])[i] != (keys + [key])[j] {
          if j == |keys| {
            assert (keys + [key])[i] == keys[i];
          }
        }
      }
    }
  }

  /**
   * The collection: the keys in the order they were first added, and each key's
   * list of values in the order they were added.
   */
  class ParameterCollection {
    var keys: seq<string>
    var values: map<string, seq<Value>>

    ghost predicate Valid()
      reads this
    {
      Stored(keys, values)
    }

    constructor ()
      ensures Valid() && keys == [] && values == map[]
    {
      keys := [];
      values := map[];
    }

    /** Every (key, value) pair, once per value; within a key, in the order added. */
    function Pairs(): (ps: seq<(string, Value)>)
      reads this
      requires Valid()
      ensures |ps| == TotalCount(keys, values)
    {
      FlattenCount(keys, values);
      Flatten(keys, values)
    }

    /** The number of stored values over all keys. */
    function Count(): (n: nat)
      reads this
      requires Valid()
      ensures n == |Pairs()|
    {
      TotalCount(keys, values)
    }

    /** The indexer: key's values in the order they were added, none for an absent key. */
    function Get(key: string): (vs: seq<Value>)
      reads this
      requires Valid()
      ensures vs == ValuesOf(Pairs(), key)
    {
      FlattenValuesOf(keys, values, key);
      if key in values then values[key] else []
    }

    /** Holds exactly when some pair has this key, that is, when some Add used it. */
    function Contains(key: string): (b: bool)
      reads this
      requires Valid()
      ensures b <==> exists i :: 0 <= i < |Pairs()| && Pairs()[i].0 == key
    {
      FlattenValuesOf(keys, values, key);
      ValuesOfNonEmpty(Pairs(), key);
      key in values
    }

    /** Appends value to key's list, creating the list [value] when key is new. */
    method Add(key: string, value: Value)
      requires Valid()
      modifies this
      ensures Valid()
      ensures keys == if key in old(keys) then old(keys) else old(keys) + [key]
      ensures values == old(values)[key := old(Get(key)) + [value]]
      ensures Get(key) == old(Get(key)) + [value]
      ensures forall k :: k != key ==> Get(k) == old(Get(k))
      ensures Count() == old(Count()) + 1
      ensures key !in old(keys) || old(keys)[|old(keys)| - 1] == key ==> Pairs() == old(Pairs()) + [(key, value)]
    {
      CountAfterAdd(keys, values, key, value);
      FlattenAfterAdd(keys, values, key, value);
      StoredAfterAdd(keys, values, key, value);
      if key in values {
        values := values[key := values[key] + [value]];
      } else {
        assert [] + [value] == [value];
        keys := keys + [key];
        values := values[key := [value]];
      }
    }

    /**
     * ToString: one segment per stored pair, joined with '&'. It is empty exactly
     * when the collection is, and reading it back gives every pair with its AsString text.
     */
    function ToString(): (q: string)
      reads this
      requires Valid()
      ensures q == [] <==> Count() == 0
      ensures '?' !in q
      ensures ParseQuery(q) == Some(Canonical(Pairs()))
      ensures Count() > 0 ==> |Split(q, '&')| == Count()
    {
      RenderRoundTrip(Pairs());
      RenderHasNoQuestionMark(Pairs());
      Render(Pairs())
    }
  }
}
