/** The parsed JSON values the accessory inspects, and the two JavaScript
    operations it applies to them: own-property lookup and loose equality
    with `true`. Parsing itself (`JSON.parse`) is not modelled: its outcome
    is an input. */
module Json {
  import opened Wrappers
  import opened Strings

  /** A parsed JSON value. A number is the double `JSON.parse` produced,
      so "1.0000000000000001" in a body arrives as `JNum(1.0)`. */
  datatype JValue =
    | JNull
    | JBool(b: bool)
    | JNum(n: real)
    | JStr(s: string)
    | JArr(items: seq<JValue>)
    | JObj(fields: map<string, JValue>)

  /** What `JSON.parse(body)` did: threw, or produced a value. */
  datatype JsonParse = Unparseable | Parsed(value: JValue)

  /** The array or string index that `key` names, if any: the canonical
      decimal form of a number below `n`, so "1" is an index and "01" is
      not. */
  function IndexKey(key: string, n: nat): (r: Option<nat>)
    ensures r.Some? ==> r.value < n && NatToString(r.value) == key
  {
    if IsCanonicalNat(key) && DigitsToNat(key) < n then
      CanonicalRoundTrip(key);
      Some(DigitsToNat(key))
    else None
  }

  /** Every index below the length is named by its decimal form. */
  lemma IndexKeyOfIndex(i: nat, n: nat)
    requires i < n
    ensures IndexKey(NatToString(i), n) == Some(i)
  {
    NatToStringRoundTrip(i);
  }

  /** `v.hasOwnProperty(key)`: an object owns its fields; an array and a
      string own their indices and `length`; numbers, booleans and `null`
      own nothing. */
  predicate HasOwnProperty(v: JValue, key: string) {
    match v
    case JObj(fields) => key in fields
    case JArr(items) => key == "length" || IndexKey(key, |items|).Some?
    case JStr(s) => key == "length" || IndexKey(key, |s|).Some?
    case _ => false
  }

  /** `v[key]` for an own property; `None` stands for `undefined`. */
  function Property(v: JValue, key: string): (r: Option<JValue>)
    ensures r.Some? <==> HasOwnProperty(v, key)
    ensures v.JObj? && r.Some? ==> r.value == v.fields[key]
    ensures v.JArr? && key == "length" ==> r == Some(JNum(|v.items| as real))
    ensures v.JStr? && key == "length" ==> r == Some(JNum(|v.s| as real))
    ensures v.JArr? && r.Some? && key != "length" ==> r.value in v.items
    ensures v.JStr? && r.Some? && key != "length" ==> r.value.JStr? && |r.value.s| == 1
  {
    match v
    case JObj(fields) => if key in fields then Some(fields[key]) else None
    case JArr(items) =>
      if key == "length" then Some(JNum(|items| as real))
      else if IndexKey(key, |items|).Some? then Some(items[IndexKey(key, |items|).value])
      else None
    case JStr(s) =>
      if key == "length" then Some(JNum(|s| as real))
      else if IndexKey(key, |s|).Some? then Some(JStr([s[IndexKey(key, |s|).value]]))
      else None
    case _ => None
  }

  /** The `i`-th element of an array, and the `i`-th character of a
      string, are its properties under the key `String(i)`. */
  lemma IndexedProperties(v: JValue, i: nat)
    ensures v.JArr? && i < |v.items| ==> Property(v, NatToString(i)) == Some(v.items[i])
    ensures v.JStr? && i < |v.s| ==> Property(v, NatToString(i)) == Some(JStr([v.s[i]]))
  {
    if v.JArr? && i < |v.items| {
      IndexKeyOfIndex(i, |v.items|);
    }
    if v.JStr? && i < |v.s| {
      IndexKeyOfIndex(i, |v.s|);
    }
  }

  /** Key examples: "0" reads the first element of `["OPEN"]` and "length"
      its length, a padded index " 0" or "00" is not a key, and "1" reads
      the second character of "on". */
  lemma PropertyExamples()
    ensures Property(JArr([JStr("OPEN")]), "0") == Some(JStr("OPEN"))
    ensures Property(JArr([JStr("OPEN")]), "length") == Some(JNum(1.0))
    ensures Property(JArr([JStr("OPEN")]), "00") == None
    ensures Property(JArr([JStr("OPEN")]), " 0") == None
    ensures Property(JStr("on"), "1") == Some(JStr("n"))
    ensures Property(JNum(1.0), "0") == None
  {
    IndexedProperties(JArr([JStr("OPEN")]), 0);
    IndexedProperties(JStr("on"), 1);
    assert NatToString(0) == "0" && NatToString(1) == "1";
  }

  predicate AllZeros(z: string) {
    forall i :: 0 <= i < |z| ==> z[i] == '0'
  }

  /** A decimal literal whose value is one: leading zeros, a `1`, and an
      optional fraction made only of zeros (`1`, `01`, `1.`, `1.00`). */
  predicate IsDecimalOne(u: string) {
    exists i :: 0 <= i < |u| && u[i] == '1' && AllZeros(u[..i])
                && (i + 1 == |u| || (u[i + 1] == '.' && AllZeros(u[i + 2..])))
  }

  /** Digits whose value is one in any base: zeros, then a single `1`. */
  predicate IsIntegerOne(u: string) {
    |u| > 0 && u[|u| - 1] == '1' && AllZeros(u[..|u| - 1])
  }

  /** A hexadecimal, octal or binary literal whose value is one (`0x1`,
      `0O01`, `0b1`); these forms take no sign. */
  predicate IsNonDecimalOne(t: string) {
    |t| >= 2 && t[0] == '0' && t[1] in "xXoObB" && IsIntegerOne(t[2..])
  }

  /** The string converts to the number one (`ToNumber`): in decimal
      notation without exponent, with an optional plus sign, or as a
      hexadecimal, octal or binary literal. */
  predicate StringNumberIsOne(s: string) {
    var t := Trim(s);
    IsDecimalOne(t) || (|t| > 0 && t[0] == '+' && IsDecimalOne(t[1..])) || IsNonDecimalOne(t)
  }

  /** Whether a value, converted to text as `Array.prototype.join` converts
      an element, then to a number, is one. `null` becomes the empty string
      and a boolean its word, neither of which is one; an array joins its
      elements with commas, so only a one-element array can be one; an
      object becomes "[object Object]". */
  predicate TextIsOne(x: JValue) {
    match x
    case JNull => false
    case JBool(_) => false
    case JNum(n) => n == 1.0
    case JStr(s) => StringNumberIsOne(s)
    case JArr(items) => |items| == 1 && TextIsOne(items[0])
    case JObj(_) => false
  }

  /** JavaScript `v == true`, where `None` is `undefined`: `true` compares as
      the number one, so a boolean must be `true`, a number must be 1, a
      string must convert to 1 and an array must turn into such a string;
      `null`, `undefined` and objects never equal it. */
  predicate LooselyTrue(v: Option<JValue>) {
    match v
    case None => false
    case Some(JNull) => false
    case Some(JBool(b)) => b
    case Some(JNum(n)) => n == 1.0
    case Some(JStr(s)) => StringNumberIsOne(s)
    case Some(JArr(_)) => TextIsOne(v.value)
    case Some(JObj(_)) => false
  }

  /** Loose equality with `true` accepts the number one and the string "1"
      but not the string "true", `null` or `undefined`. */
  lemma LooseTruthExamples()
    ensures LooselyTrue(Some(JBool(true))) && !LooselyTrue(Some(JBool(false)))
    ensures LooselyTrue(Some(JNum(1.0))) && !LooselyTrue(Some(JNum(2.0)))
    ensures LooselyTrue(Some(JStr("1")))
    ensures !LooselyTrue(Some(JStr("true")))
    ensures !LooselyTrue(None) && !LooselyTrue(Some(JNull))
  {
    OneStringIsOne();
    TrueStringIsNotOne();
  }

  /** Loose equality with `true` accepts a one-element array whose element
      reads as one, but not an array holding `true` or a longer array. */
  lemma LooseTruthOfArrays()
    ensures LooselyTrue(Some(JArr([JStr(" 1 ")]))) && LooselyTrue(Some(JArr([JNum(1.0)])))
    ensures !LooselyTrue(Some(JArr([JBool(true)])))
    ensures !LooselyTrue(Some(JArr([JNum(1.0), JNum(1.0)])))
  {
    PaddedOneIsOne();
    WrappedLooseTruth(JStr(" 1 "));
    WrappedLooseTruth(JNum(1.0));
    WrappedLooseTruth(JBool(true));
  }

  /** Loose equality with `true` accepts the hexadecimal literal of one,
      which may not carry a sign. */
  lemma LooseTruthOfRadixes()
    ensures LooselyTrue(Some(JStr("0x1"))) && !LooselyTrue(Some(JStr("+0x1")))
  {
    HexOneIsOne();
    SignedHexIsNotOne();
  }

  lemma PaddedOneIsOne()
    ensures StringNumberIsOne(" 1 ")
  {
    assert AllWhitespace(" ");
    assert " " + "1" + " " == " 1 ";
    NumberTextIgnoresPadding(" ", "1", " ");
    OneStringIsOne();
  }

  lemma HexOneIsOne()
    ensures StringNumberIsOne("0x1")
  {
    var t := "0x1";
    assert |t| == 3 && t[0] == '0' && t[1] == 'x' && t[2] == '1';
    TrimmedIsFixed(t);
    RadixOne(t);
  }

  lemma RadixOne(t: string)
    requires |t| == 3 && t[0] == '0' && t[1] == 'x' && t[2] == '1'
    ensures IsNonDecimalOne(t)
  {
    assert t[2..] == [t[2]];
    assert t[2..][..0] == [];
  }

  lemma SignedHexIsNotOne()
    ensures !StringNumberIsOne("+0x1")
  {
    var t := "+0x1";
    assert |t| == 4 && t[0] == '+' && t[1] == '0' && t[2] == 'x' && t[3] == '1';
    TrimmedIsFixed(t);
    SignedRadixIsNotOne(t);
  }

  lemma SignedRadixIsNotOne(t: string)
    requires |t| == 4 && t[0] == '+' && t[1] == '0' && t[2] == 'x' && t[3] == '1'
    ensures !IsDecimalOne(t) && !IsDecimalOne(t[1..]) && !IsNonDecimalOne(t)
  {
    NoOneBefore(t, 0);
    NoOneBefore(t[1..], 1);
  }

  /** A text whose first character other than `0` comes before any `1` and
      is not `1` itself does not denote one in decimal. */
  lemma NoOneBefore(u: string, k: int)
    requires 0 <= k < |u| && u[k] != '0' && u[k] != '1'
    requires forall i :: 0 <= i < k ==> u[i] != '1'
    ensures !IsDecimalOne(u)
  {
    forall i | 0 <= i < |u| && u[i] == '1'
      ensures !AllZeros(u[..i])
    {
      assert u[..i][k] == u[k];
    }
  }

  /** Surrounding whitespace does not change whether a string is one. */
  lemma NumberTextIgnoresPadding(p: string, s: string, q: string)
    requires AllWhitespace(p) && AllWhitespace(q)
    ensures StringNumberIsOne(p + s + q) == StringNumberIsOne(s)
  {
    TrimIgnoresPadding(p, s, q);
  }

  /** Wrapping a value in a one-element array keeps its loose truth, except
      that a boolean turns into its word and is then never one. */
  lemma WrappedLooseTruth(x: JValue)
    ensures !x.JBool? ==> (LooselyTrue(Some(JArr([x]))) <==> LooselyTrue(Some(x)))
    ensures x.JBool? ==> !LooselyTrue(Some(JArr([x])))
  {
    assert [x][0] == x;
    assert TextIsOne(JArr([x])) == TextIsOne(x);
  }

  lemma OneStringIsOne()
    ensures StringNumberIsOne("1")
  {
    var t := "1";
    assert |t| == 1 && t[0] == '1';
    TrimmedIsFixed(t);
    DecimalOne(t);
  }

  lemma DecimalOne(t: string)
    requires |t| == 1 && t[0] == '1'
    ensures IsDecimalOne(t)
  {
    assert t[..0] == [];
  }

  lemma TrueStringIsNotOne()
    ensures !StringNumberIsOne("true")
  {
    TrueTextIsTrimmed();
    TrueTextIsNotDecimal();
  }

  lemma TrueTextIsTrimmed()
    ensures Trim("true") == "true"
  {
    var t := "true";
    assert t == ['t', 'r', 'u', 'e'];
    TrimmedIsFixed(t);
  }

  lemma TrueTextIsNotDecimal()
    ensures !IsDecimalOne("true") && "true"[0] != '+' && !IsNonDecimalOne("true")
  {
    var t := "true";
    assert |t| == 4 && t[0] == 't' && t[1] == 'r' && t[2] == 'u' && t[3] == 'e';
    NoOneBefore(t, 0);
  }

}
