/**
  The OTLP/JSON attribute codec (extension/src/otel/attrs.ts): values to tagged AnyValues and
  back, attribute lists to records and back, and the reverse-scan lookup.
 */
module Attrs {
  import opened Common
  import opened Json

  const MAX_SAFE := 9007199254740991 // 2^53 - 1

  predicate Safe(n: int) {
    -MAX_SAFE <= n <= MAX_SAFE
  }

  type SafeInt = n: int | Safe(n)

  /** The JavaScript values the codec handles.  An integral number is `Int` if it is safe and `Large` otherwise,
      with the text that `String` gives for it (the shortest digits that read back as the number, so in general not
      its exact decimal); `Double` is any other finite number. */
  datatype Js =
    | Undefined
    | NullValue
    | Text(s: string)
    | Flag(b: bool)
    | Int(n: SafeInt)
    | NegativeZero
    | Large(text: string)
    | Double(d: real)
    | BigInt(big: int)
    | List(items: seq<Js>)
    | Record(entries: seq<Entry>)

  datatype Entry = Entry(key: string, value: Js)

  /** An AnyValue as received: any subset of the tags may be set. */
  datatype AnyValue = AnyValue(
    stringValue: Option<string>,
    boolValue: Option<bool>,
    intValue: Option<string>,
    doubleValue: Option<real>,
    arrayValue: ArrayValue,
    kvlistValue: KvlistValue,
    bytesValue: Option<string>)

  datatype ArrayValue = NoArray | Array(values: seq<AnyValue>)
  datatype KvlistValue = NoKvlist | Kvlist(values: seq<Attribute>)
  datatype Attribute = Attribute(key: string, value: AnyValue)

  const NOTHING := AnyValue(None, None, None, None, NoArray, NoKvlist, None)
  // ---- decimal text ----------------------------------------------------------------------------

  predicate OnlyDigits(s: string) {
    forall i :: 0 <= i < |s| ==> '0' <= s[i] <= '9'
  }

  predicate AllDigits(s: string) {
    s != "" && OnlyDigits(s)
  }

  function ParseDigits(s: string): nat
    requires OnlyDigits(s)
  {
    if s == "" then 0
    else ParseDigits(s[..|s| - 1]) * 10 + (s[|s| - 1] as int - '0' as int)
  }

  function ParseDec(s: string): Option<int> {
    if AllDigits(s) then Some(ParseDigits(s) as int)
    else if s != "" && s[0] == '-' && AllDigits(s[1..]) then
      var n: int := ParseDigits(s[1..]);
      Some(-n)
    else None
  }

  lemma {:induction false} DigitsParse(n: nat)
    ensures AllDigits(Digits(n)) && ParseDigits(Digits(n)) == n
  {
    if n >= 10 {
      DigitsParse(n / 10);
      ParseNext(Digits(n / 10), n % 10);
    } else {
      ParseNext("", n);
      assert "" + [DIGITS[n]] == Digits(n);
    }
  }

  lemma ParseNext(s: string, d: nat)
    requires OnlyDigits(s) && d < 10
    ensures OnlyDigits(s + [DIGITS[d]]) && ParseDigits(s + [DIGITS[d]]) == ParseDigits(s) * 10 + d
  {
    DigitIs(d);
    ParseSnoc(s, DIGITS[d]);
  }

  lemma DigitIs(d: nat)
    requires d < 10
    ensures '0' <= DIGITS[d] <= '9' && DIGITS[d] as int - '0' as int == d
  {
  }

  lemma ParseSnoc(s: string, c: char)
    requires OnlyDigits(s) && '0' <= c <= '9'
    ensures OnlyDigits(s + [c]) && ParseDigits(s + [c]) == ParseDigits(s) * 10 + (c as int - '0' as int)
  {
    assert (s + [c])[..|s|] == s;
  }

  lemma DecParses(n: int)
    ensures ParseDec(Dec(n)) == Some(n)
  {
    DigitsParse(if n < 0 then -n else n);
    if n < 0 {
      assert Dec(n)[1..] == Digits(-n) && Dec(n)[0] in Dec(n);
    }
  }

  /** The safe integer that prints as the text, if there is one. */
  function ParseSafe(s: string): Option<SafeInt> {
    var n := ParseDec(s);
    if n.Some? && Safe(n.value) && Dec(n.value) == s then Some(n.value) else None
  }

  lemma ParseSafeIs(s: string, n: SafeInt)
    ensures ParseSafe(s) == Some(n) <==> Dec(n) == s
  {
    if Dec(n) == s {
      DecParses(n);
    }
  }

  // ---- encoding --------------------------------------------------------------------------------

  function EncodeValue(v: Js): AnyValue
    decreases v, 0
  {
    match v
    case Undefined => NOTHING.(stringValue := Some(""))
    case NullValue => NOTHING.(stringValue := Some(""))
    case Text(s) => NOTHING.(stringValue := Some(s))
    case Flag(b) => NOTHING.(boolValue := Some(b))
    case Int(n) => NOTHING.(intValue := Some(Dec(n)))
    case NegativeZero => NOTHING.(intValue := Some("0"))
    case Large(text) => NOTHING.(intValue := Some(text))
    case Double(d) => NOTHING.(doubleValue := Some(d))
    case BigInt(n) => NOTHING.(intValue := Some(Dec(n)))
    case List(items) => NOTHING.(arrayValue := Array(EncodeItems(items)))
    case Record(entries) => NOTHING.(kvlistValue := Kvlist(EncodeAttrs(entries)))
  }

  function EncodeItems(items: seq<Js>): seq<AnyValue>
    decreases items, 0
  {
    if items == [] then [] else [EncodeValue(items[0])] + EncodeItems(items[1..])
  }

  function EncodeAttrs(entries: seq<Entry>): seq<Attribute>
    decreases entries, 0
  {
    if entries == [] then []
    else [Attribute(entries[0].key, EncodeValue(entries[0].value))] + EncodeAttrs(entries[1..])
  }

  // ---- decoding --------------------------------------------------------------------------------

  /** Assigning a key of a record: in place if present, else at the end. */
  function Put(r: seq<Entry>, key: string, v: Js): seq<Entry> {
    if r == [] then [Entry(key, v)]
    else if r[0].key == key then [Entry(key, v)] + r[1..]
    else [r[0]] + Put(r[1..], key, v)
  }

  function Lookup(r: seq<Entry>, key: string): Js {
    if r == [] then Undefined else if r[0].key == key then r[0].value else Lookup(r[1..], key)
  }

  function DecodeValue(a: AnyValue): Js
    decreases a, 0
  {
    if a.stringValue.Some? then Text(a.stringValue.value)
    else if a.boolValue.Some? then Flag(a.boolValue.value)
    else if a.intValue.Some? then
      var n := ParseSafe(a.intValue.value);
      if n.Some? then Int(n.value) else Text(a.intValue.value)
    else if a.doubleValue.Some? then Double(a.doubleValue.value)
    else if a.arrayValue.Array? then List(DecodeItems(a.arrayValue.values))
    else if a.kvlistValue.Kvlist? then Record(DecodeAttrs(a.kvlistValue.values))
    else if a.bytesValue.Some? then Text(a.bytesValue.value)
    else Undefined
  }

  function DecodeItems(items: seq<AnyValue>): seq<Js>
    decreases items, 0
  {
    if items == [] then [] else [DecodeValue(items[0])] + DecodeItems(items[1..])
  }

  /** Left to right; a later duplicate overwrites. */
  function DecodeAttrs(attrs: seq<Attribute>): seq<Entry>
    decreases attrs, 0
  {
    if attrs == [] then []
    else
      var n := |attrs| - 1;
      Put(DecodeAttrs(attrs[..n]), attrs[n].key, DecodeValue(attrs[n].value))
  }

  /** The loop of `encodeAttrs`. */
  method EncodeAttrsLoop(entries: seq<Entry>) returns (out: seq<Attribute>)
    ensures out == EncodeAttrs(entries)
  {
    out := [];
    for i := 0 to |entries|
      invariant out + EncodeAttrs(entries[i..]) == EncodeAttrs(entries)
    {
      assert entries[i..][1..] == entries[i + 1..];
      out := out + [Attribute(entries[i].key, EncodeValue(entries[i].value))];
    }
  }

  /** The loop of `decodeAttrs`. */
  method DecodeAttrsLoop(attrs: seq<Attribute>) returns (out: seq<Entry>)
    ensures out == DecodeAttrs(attrs)
  {
    out := [];
    for i := 0 to |attrs|
      invariant out == DecodeAttrs(attrs[..i])
    {
      assert attrs[..i + 1][..i] == attrs[..i];
      out := Put(out, attrs[i].key, DecodeValue(attrs[i].value));
    }
    assert attrs[..|attrs|] == attrs;
  }

  /** `getAttr`: scan from the end, stop at the first match; it is the record lookup. */
  method GetAttr(attrs: seq<Attribute>, key: string) returns (v: Js)
    ensures v == Lookup(DecodeAttrs(attrs), key)
  {
    var i := |attrs| - 1;
    assert attrs[..|attrs|] == attrs;
    while i >= 0
      invariant -1 <= i < |attrs|
      invariant Lookup(DecodeAttrs(attrs[..i + 1]), key) == Lookup(DecodeAttrs(attrs), key)
    {
      assert attrs[..i + 1][..i] == attrs[..i];
      LookupPut(DecodeAttrs(attrs[..i]), attrs[i].key, DecodeValue(attrs[i].value), key);
      if attrs[i].key == key {
        return DecodeValue(attrs[i].value);
      }
      i := i - 1;
    }
    return Undefined;
  }

  lemma {:induction false} LookupPut(r: seq<Entry>, key: string, v: Js, k: string)
    ensures Lookup(Put(r, key, v), k) == if k == key then v else Lookup(r, k)
  {
    if r != [] && r[0].key != key {
      LookupPut(r[1..], key, v, k);
    }
  }

  /** The tag set in e is set alike in a, and none that stands before it in the order is set in a. */
  predicate Leads(e: AnyValue, a: AnyValue) {
    if e.stringValue.Some? then a.stringValue == e.stringValue
    else if a.stringValue.Some? then false
    else if e.boolValue.Some? then a.boolValue == e.boolValue
    else if a.boolValue.Some? then false
    else if e.intValue.Some? then a.intValue == e.intValue
    else if a.intValue.Some? then false
    else if e.doubleValue.Some? then a.doubleValue == e.doubleValue
    else if a.doubleValue.Some? then false
    else if e.arrayValue.Array? then a.arrayValue == e.arrayValue
    else a.arrayValue.NoArray? && a.kvlistValue == e.kvlistValue
  }

  /** Of several tags the first counts, in the order text, flag, integer, double, array, record: whatever else is set
      behind the tag of an encoded value is ignored. */
  lemma FirstTagCounts(v: Js, a: AnyValue)
    requires Leads(EncodeValue(v), a)
    ensures DecodeValue(a) == DecodeValue(EncodeValue(v))
  {
  }

  // ---- the round trip --------------------------------------------------------------------------

  predicate HasKey(r: seq<Entry>, key: string) {
    exists i :: 0 <= i < |r| && r[i].key == key
  }

  predicate DistinctEntries(r: seq<Entry>) {
    forall i, j :: 0 <= i < j < |r| ==> r[i].key != r[j].key
  }

  /** A JavaScript value, at any depth: no record holds a key twice, and no number that is not a safe integer
      prints like one. */
  predicate WellFormed(v: Js) {
    match v
    case Large(text) => ParseSafe(text).None?
    case List(items) => forall x <- items :: WellFormed(x)
    case Record(entries) => DistinctEntries(entries) && forall e <- entries :: WellFormed(e.value)
    case _ => true
  }

  /** What the wire can carry: null is the empty string, an unsafe integer its printed text, a safe bigint a
      number, and zero has no sign. */
  function Normal(v: Js): Js
    decreases v, 0
  {
    match v
    case Undefined => Text("")
    case NullValue => Text("")
    case NegativeZero => Int(0)
    case Large(text) => Text(text)
    case BigInt(n) => if Safe(n) then Int(n) else Text(Dec(n))
    case List(items) => List(NormalItems(items))
    case Record(entries) => Record(NormalEntries(entries))
    case _ => v
  }

  function NormalItems(items: seq<Js>): seq<Js>
    decreases items, 0
  {
    if items == [] then [] else [Normal(items[0])] + NormalItems(items[1..])
  }

  function NormalEntries(entries: seq<Entry>): (r: seq<Entry>)
    ensures |r| == |entries| && forall i :: 0 <= i < |entries| ==> r[i].key == entries[i].key
    decreases entries, 0
  {
    if entries == [] then []
    else [Entry(entries[0].key, Normal(entries[0].value))] + NormalEntries(entries[1..])
  }

  lemma {:induction false} PutNew(r: seq<Entry>, key: string, v: Js)
    requires !HasKey(r, key)
    ensures Put(r, key, v) == r + [Entry(key, v)]
  {
    if r != [] {
      assert r[0].key != key;
      assert forall i :: 0 <= i < |r[1..]| ==> r[1..][i] == r[i + 1];
      PutNew(r[1..], key, v);
    }
  }

  lemma {:induction false} EncodeAttrsAt(entries: seq<Entry>, i: nat)
    requires i < |entries|
    ensures |EncodeAttrs(entries)| == |entries|
    ensures EncodeAttrs(entries)[i] == Attribute(entries[i].key, EncodeValue(entries[i].value))
  {
    if |entries| > 1 {
      EncodeAttrsAt(entries[1..], if i > 0 then i - 1 else 0);
    }
  }

  lemma {:induction false} NormalEntriesAt(entries: seq<Entry>, i: nat)
    requires i < |entries|
    ensures NormalEntries(entries)[i] == Entry(entries[i].key, Normal(entries[i].value))
  {
    if i > 0 {
      NormalEntriesAt(entries[1..], i - 1);
    }
  }

  /** Decoding an encoded value gives its normal form, at every depth. */
  lemma {:induction false} RoundTrip(v: Js)
    requires WellFormed(v)
    ensures DecodeValue(EncodeValue(v)) == Normal(v)
    decreases v, 1
  {
    match v
    case Int(n) => ParseSafeIs(Dec(n), n);
    case NegativeZero => ZeroParses();
    case BigInt(n) => DecParses(n);
    case List(items) => RoundTripItems(items);
    case Record(entries) => RoundTripRecord(entries, |entries|);
      assert EncodeAttrs(entries)[..|entries|] == EncodeAttrs(entries) by {
        if entries != [] { EncodeAttrsAt(entries, 0); }
      }
    case _ =>
  }

  lemma ZeroParses()
    ensures ParseSafe("0") == Some(0)
  {
    assert Dec(0) == "0";
    ParseSafeIs("0", 0);
  }

  lemma {:induction false} RoundTripItems(items: seq<Js>)
    requires forall x <- items :: WellFormed(x)
    ensures DecodeItems(EncodeItems(items)) == NormalItems(items)
    decreases items, 0
  {
    if items != [] {
      RoundTrip(items[0]);
      RoundTripItems(items[1..]);
      assert EncodeItems(items)[1..] == EncodeItems(items[1..]);
    }
  }

  lemma {:induction false} RoundTripRecord(entries: seq<Entry>, k: nat)
    requires DistinctEntries(entries) && (forall e <- entries :: WellFormed(e.value)) && k <= |entries|
    ensures |EncodeAttrs(entries)| == |entries|
    ensures DecodeAttrs(EncodeAttrs(entries)[..k]) == NormalEntries(entries)[..k]
    decreases entries, 0, k
  {
    if entries != [] {
      EncodeAttrsAt(entries, 0);
    }
    if k > 0 {
      var n := k - 1;
      RoundTripRecord(entries, n);
      EncodeAttrsAt(entries, n);
      NormalEntriesAt(entries, n);
      assert entries[n] in entries && entries[n].value < entries[n];
      RoundTrip(entries[n].value);
      DecodeOneMore(EncodeAttrs(entries), NormalEntries(entries), n);
    }
  }

  lemma DecodeOneMore(attrs: seq<Attribute>, record: seq<Entry>, n: nat)
    requires n < |attrs| && |record| == |attrs| && DecodeAttrs(attrs[..n]) == record[..n] && DistinctEntries(record)
    requires record[n] == Entry(attrs[n].key, DecodeValue(attrs[n].value))
    ensures DecodeAttrs(attrs[..n + 1]) == record[..n + 1]
  {
    assert attrs[..n + 1][..n] == attrs[..n];
    PutNew(record[..n], record[n].key, record[n].value);
    assert record[..n + 1] == record[..n] + [record[n]];
  }

  /** The normal form is one: normalising again changes nothing, so a second trip is exact. */
  lemma {:induction false} NormalIsFixed(v: Js)
    ensures Normal(Normal(v)) == Normal(v)
    decreases v, 1
  {
    match v
    case List(items) => NormalItemsFixed(items);
    case Record(entries) => NormalEntriesFixed(entries);
    case _ =>
  }

  lemma {:induction false} NormalItemsFixed(items: seq<Js>)
    ensures NormalItems(NormalItems(items)) == NormalItems(items)
    decreases items, 0
  {
    if items != [] {
      NormalIsFixed(items[0]);
      NormalItemsFixed(items[1..]);
      assert NormalItems(items)[1..] == NormalItems(items[1..]);
    }
  }

  lemma {:induction false} NormalEntriesFixed(entries: seq<Entry>)
    ensures NormalEntries(NormalEntries(entries)) == NormalEntries(entries)
    decreases entries, 0
  {
    if entries != [] {
      NormalIsFixed(entries[0].value);
      NormalEntriesFixed(entries[1..]);
      assert NormalEntries(entries)[1..] == NormalEntries(entries[1..]);
    }
  }

  /** No undefined, null, bigint, negative zero or integral number beyond the safe range, at any depth. */
  predicate Carried(v: Js) {
    match v
    case Text(_) => true
    case Flag(_) => true
    case Int(_) => true
    case Double(_) => true
    case List(items) => forall x <- items :: Carried(x)
    case Record(entries) => forall e <- entries :: Carried(e.value)
    case _ => false
  }

  lemma {:induction false} CarriedIsNormal(v: Js)
    ensures Normal(v) == v <==> Carried(v)
    decreases v, 1
  {
    match v
    case List(items) => CarriedItems(items);
    case Record(entries) => CarriedEntries(entries);
    case _ =>
  }

  lemma {:induction false} CarriedItems(items: seq<Js>)
    ensures NormalItems(items) == items <==> forall x <- items :: Carried(x)
    decreases items, 0
  {
    if items != [] {
      var head, rest := items[0], items[1..];
      CarriedIsNormal(head);
      CarriedItems(rest);
      assert items == [head] + rest;
      assert ([Normal(head)] + NormalItems(rest))[1..] == NormalItems(rest);
    }
  }

  lemma {:induction false} CarriedEntries(entries: seq<Entry>)
    ensures NormalEntries(entries) == entries <==> forall e <- entries :: Carried(e.value)
    decreases entries, 0
  {
    if entries != [] {
      var head, rest := entries[0], entries[1..];
      CarriedIsNormal(head.value);
      CarriedEntries(rest);
      assert entries == [head] + rest;
      assert ([Entry(head.key, Normal(head.value))] + NormalEntries(rest))[1..] == NormalEntries(rest);
    }
  }

  /** The codec is lossless exactly on values without undefined, null, bigint, negative zero or an unsafe integral
      number at any depth. */
  lemma LosslessExactly(v: Js)
    requires WellFormed(v)
    ensures DecodeValue(EncodeValue(v)) == v <==> Carried(v)
  {
    RoundTrip(v);
    CarriedIsNormal(v);
  }

  /** An `intValue` decodes to a number exactly when re-encoding that number gives the same text;
      otherwise the text is kept. */
  lemma IntTextKept(s: string, n: SafeInt)
    ensures var a := NOTHING.(intValue := Some(s));
      && (DecodeValue(a) == Int(n) <==> EncodeValue(Int(n)) == a)
      && (DecodeValue(a).Int? || DecodeValue(a) == Text(s))
  {
    ParseSafeIs(s, n);
  }

  /** A decoded record never holds a key twice, whatever list it came from. */
  lemma {:induction false} DecodedKeysDistinct(attrs: seq<Attribute>)
    ensures DistinctEntries(DecodeAttrs(attrs))
  {
    if attrs != [] {
      var n := |attrs| - 1;
      DecodedKeysDistinct(attrs[..n]);
      PutDistinct(DecodeAttrs(attrs[..n]), attrs[n].key, DecodeValue(attrs[n].value));
    }
  }

  lemma {:induction false} PutDistinct(r: seq<Entry>, key: string, v: Js)
    requires DistinctEntries(r)
    ensures DistinctEntries(Put(r, key, v))
    ensures forall e <- Put(r, key, v) :: e.key == key || HasKey(r, e.key)
  {
    if r != [] {
      if r[0].key == key {
        assert forall i :: 1 <= i < |r| ==> Put(r, key, v)[i] == r[i];
      } else {
        PutDistinct(r[1..], key, v);
        var p := Put(r[1..], key, v);
        forall j | 0 <= j < |p| ensures p[j].key != r[0].key {
          assert p[j] in p;
        }
        forall k ensures HasKey(r[1..], k) ==> HasKey(r, k) {
          KeyBehind(r, k);
        }
        assert HasKey(r, r[0].key);
      }
    }
  }

  lemma KeyBehind(r: seq<Entry>, k: string)
    requires r != []
    ensures HasKey(r[1..], k) ==> HasKey(r, k)
  {
    if HasKey(r[1..], k) {
      var i :| 0 <= i < |r[1..]| && r[1..][i].key == k;
      assert r[i + 1].key == k;
    }
  }
}
