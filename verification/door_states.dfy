/** The door and light state vocabulary and the decoders that turn a device
    response into it (index.js:526-543, 569-572, 640-683). */
module DoorStates {
  import opened Wrappers
  import opened Strings
  import opened Json

  /** The HomeKit CurrentDoorState values; the target axis reuses them. */
  datatype DoorState = Open | Closed | Opening | Closing | Stopped

  /** A decoder either yields a value, reports text it does not recognise
      (the `null` the accessory turns into an error), or throws a TypeError
      that nothing in the accessory catches. */
  datatype Decoded<T> = Decoded(value: T) | Unrecognized | TypeErrorThrown

  /** `_doorStateToString`, used to log a door state. */
  function DoorStateToString(d: DoorState): string {
    match d
    case Open => "OPEN"
    case Closed => "CLOSED"
    case Opening => "OPENING"
    case Closing => "CLOSING"
    case Stopped => "STOPPED"
  }

  /** The device words that all mean a stopped (possibly obstructed) door. */
  predicate IsStoppedWord(w: string) {
    w == "UNKNOWN" || w == "STOPPED" || w == "STOPPED-OPENING" || w == "STOPPED-CLOSING"
  }

  /** `_doorStateToState`: the device word, compared after upper-casing,
      names one of the four moving/resting states or one of the stopped
      words; anything else is not a door state. */
  function DoorStateToState(text: string): (r: Option<DoorState>)
    ensures r == Some(Open) <==> ToUpper(text) == "OPEN"
    ensures r == Some(Closed) <==> ToUpper(text) == "CLOSED"
    ensures r == Some(Opening) <==> ToUpper(text) == "OPENING"
    ensures r == Some(Closing) <==> ToUpper(text) == "CLOSING"
    ensures r == Some(Stopped) <==> IsStoppedWord(ToUpper(text))
  {
    var w := ToUpper(text);
    if w == "OPEN" then Some(Open)
    else if w == "CLOSED" then Some(Closed)
    else if w == "OPENING" then Some(Opening)
    else if w == "CLOSING" then Some(Closing)
    else if IsStoppedWord(w) then Some(Stopped)
    else None
  }

  /** Every logged door state decodes back to itself. */
  lemma DoorStateRoundTrip(d: DoorState)
    ensures DoorStateToState(DoorStateToString(d)) == Some(d)
  {
  }

  /** Decoding does not depend on letter case. */
  lemma DoorDecodingIgnoresCase(a: string, b: string)
    requires EqualsIgnoringCase(a, b)
    ensures DoorStateToState(a) == DoorStateToState(b)
  {
  }

  /** Text API path (index.js:538-543): the body is upper-cased and trimmed
      before it is decoded. */
  function DecodeTextDoor(body: string): (r: Decoded<DoorState>)
    ensures r != TypeErrorThrown
  {
    match DoorStateToState(Trim(ToUpper(body)))
    case Some(d) => Decoded(d)
    case None => Unrecognized
  }

  /** JSON API path (index.js:526-531): the field value is decoded as it is,
      without trimming; `toUpperCase` exists only on strings, so any other
      value (or a missing field) throws. */
  function DecodeJsonDoor(v: Option<JValue>): (r: Decoded<DoorState>)
    ensures r == TypeErrorThrown <==> !(v.Some? && v.value.JStr?)
    ensures v.Some? && v.value.JStr? ==>
              (r.Decoded? <==> DoorStateToState(v.value.s).Some?)
    ensures v.Some? && v.value.JStr? && DoorStateToState(v.value.s).Some? ==>
              r == Decoded(DoorStateToState(v.value.s).value)
  {
    match v
    case Some(JStr(s)) =>
      (match DoorStateToState(s)
       case Some(d) => Decoded(d)
       case None => Unrecognized)
    case _ => TypeErrorThrown
  }

  lemma UpperOfWhitespace(p: string)
    requires AllWhitespace(p)
    ensures ToUpper(p) == p
  {
  }

  lemma UpperOfConcat(a: string, b: string)
    ensures ToUpper(a + b) == ToUpper(a) + ToUpper(b)
  {
  }

  /** The text path ignores surrounding whitespace. */
  lemma TextDoorIgnoresPadding(p: string, s: string, q: string)
    requires AllWhitespace(p) && AllWhitespace(q)
    ensures DecodeTextDoor(p + s + q) == DecodeTextDoor(s)
  {
    UpperOfConcat(p + s, q);
    UpperOfConcat(p, s);
    UpperOfWhitespace(p);
    UpperOfWhitespace(q);
    TrimIgnoresPadding(p, ToUpper(s), q);
  }

  /** Decoding examples: case and padding do not matter on the text path, the stopped variants collapse to STOPPED, unknown words
      are rejected, and the JSON path does not trim. */
  lemma DoorDecodingExamples()
    ensures DecodeTextDoor("opening") == Decoded(Opening)
    ensures DecodeTextDoor(" Opening ") == Decoded(Opening)
    ensures DecodeTextDoor("stopped-closing") == Decoded(Stopped)
    ensures DecodeTextDoor("ajar") == Unrecognized
    ensures DecodeJsonDoor(Some(JStr(" open"))) == Unrecognized
  {
    OpeningExample();
    PaddedOpeningExample();
    StoppedClosingExample();
    AjarExample();
    JsonDoesNotTrimExample();
  }

  lemma OpeningExample()
    ensures DecodeTextDoor("opening") == Decoded(Opening)
    ensures DecodeTextDoor("Opening") == Decoded(Opening)
  {
    UpperExamples();
    KnownWordDecodes("OPENING");
  }

  lemma PaddedOpeningExample()
    ensures DecodeTextDoor(" Opening ") == Decoded(Opening)
  {
    assert " " + "Opening" + " " == " Opening ";
    assert AllWhitespace(" ");
    TextDoorIgnoresPadding(" ", "Opening", " ");
    OpeningExample();
  }

  lemma StoppedClosingExample()
    ensures DecodeTextDoor("stopped-closing") == Decoded(Stopped)
  {
    UpperExamples();
    KnownWordDecodes("STOPPED-CLOSING");
  }

  lemma AjarExample()
    ensures DecodeTextDoor("ajar") == Unrecognized
  {
    UpperExamples();
    AjarIsNotADoorState();
    TrimmedIsFixed("AJAR");
  }

  lemma AjarIsNotADoorState()
    ensures DoorStateToState("AJAR") == None
  {
    UpperExamples();
  }

  lemma UpperExamples()
    ensures ToUpper("opening") == "OPENING" && ToUpper("Opening") == "OPENING"
    ensures ToUpper("OPENING") == "OPENING"
    ensures ToUpper("stopped-closing") == "STOPPED-CLOSING"
    ensures ToUpper("STOPPED-CLOSING") == "STOPPED-CLOSING"
    ensures ToUpper("ajar") == "AJAR" && ToUpper("AJAR") == "AJAR"
    ensures ToUpper(" open") == " OPEN"
  {
    assert ToUpper("opening") == "OPENING" by { }
    assert ToUpper("Opening") == "OPENING" by { }
    assert ToUpper("OPENING") == "OPENING" by { }
    assert ToUpper("stopped-closing") == "STOPPED-CLOSING" by { }
    assert ToUpper("STOPPED-CLOSING") == "STOPPED-CLOSING" by { }
    assert ToUpper("ajar") == "AJAR" by { }
    assert ToUpper("AJAR") == "AJAR" by { }
  }

  /** An upper-case word without padding decodes on the text path exactly as
      `_doorStateToState` decodes it. */
  lemma KnownWordDecodes(w: string)
    requires ToUpper(w) == w
    requires |w| > 0 ==> !IsJsWhitespace(w[0]) && !IsJsWhitespace(w[|w| - 1])
    ensures DoorStateToState(w).Some? ==> DecodeTextDoor(w) == Decoded(DoorStateToState(w).value)
  {
    TrimmedIsFixed(w);
  }

  lemma JsonDoesNotTrimExample()
    ensures DecodeJsonDoor(Some(JStr(" open"))) == Unrecognized
  {
    UpperExamples();
  }

  /* --------------------------------------------------------------- light */

  /** `_lightStateToString`, used to log a light state. */
  function LightStateToString(on: bool): string {
    if on then "ON" else "OFF"
  }

  /** The words that mean "on" in a text response. */
  const TruthyWords: set<string> := {"true", "yes", "on", "1"}

  /** Text API path (index.js:571-572): lower-cased and trimmed, then
      compared with the truthy words; everything else is off. */
  function DecodeTextLight(body: string): bool {
    Trim(ToLower(body)) in TruthyWords
  }

  /** A reading of the text path that does not go through `trim`: the body
      is one of the truthy words, in any ASCII letter case, with nothing but
      whitespace around it. */
  predicate IsPaddedTruthyWord(body: string) {
    exists i, j :: 0 <= i <= j <= |body| && AllWhitespace(body[..i]) && AllWhitespace(body[j..])
                   && ToLower(body[i..j]) in TruthyWords
  }

  /** A text light is on exactly when the body is a truthy word in any case,
      padded with whitespace. */
  lemma TextLightOnExactly(body: string)
    ensures DecodeTextLight(body) <==> IsPaddedTruthyWord(body)
  {
    if DecodeTextLight(body) {
      OnBodyIsPadded(body);
    }
    if IsPaddedTruthyWord(body) {
      var i, j :| 0 <= i <= j <= |body| && AllWhitespace(body[..i]) && AllWhitespace(body[j..])
                  && ToLower(body[i..j]) in TruthyWords;
      PaddedBodyIsOn(body, i, j);
    }
  }

  lemma OnBodyIsPadded(body: string)
    requires DecodeTextLight(body)
    ensures IsPaddedTruthyWord(body)
  {
    var l := ToLower(body);
    var i := TrimWitness(l);
    var j := i + |Trim(l)|;
    PaddingBeforeLower(body, i, j);
    PaddedWitness(body, i, j, Trim(l));
  }

  lemma PaddedWitness(body: string, i: int, j: int, w: string)
    requires 0 <= i <= j <= |body| && AllWhitespace(body[..i]) && AllWhitespace(body[j..])
    requires ToLower(body[i..j]) == ToLower(body)[i..j] && ToLower(body)[i..j] == w
    requires w in TruthyWords
    ensures IsPaddedTruthyWord(body)
  {
    assert ToLower(body[i..j]) in TruthyWords;
  }

  /** Whitespace around a slice of the lower-cased text is whitespace around
      the same slice of the original. */
  lemma PaddingBeforeLower(body: string, i: int, j: int)
    requires 0 <= i <= j <= |body|
    requires AllWhitespace(ToLower(body)[..i]) && AllWhitespace(ToLower(body)[j..])
    ensures AllWhitespace(body[..i]) && AllWhitespace(body[j..])
    ensures ToLower(body[i..j]) == ToLower(body)[i..j]
  {
    LowerPrefix(body, i);
    LowerSlice(body, i, j);
    LowerSuffix(body, j);
    WhitespaceOfLower(body[..i]);
    WhitespaceOfLower(body[j..]);
  }

  lemma PaddedBodyIsOn(body: string, i: int, j: int)
    requires 0 <= i <= j <= |body| && AllWhitespace(body[..i]) && AllWhitespace(body[j..])
    requires ToLower(body[i..j]) in TruthyWords
    ensures DecodeTextLight(body)
  {
    assert body == body[..i] + body[i..j] + body[j..];
    TextLightIgnoresPadding(body[..i], body[i..j], body[j..]);
    TruthyWordIsTrimmed(ToLower(body[i..j]));
  }

  lemma LowerPrefix(s: string, i: int)
    requires 0 <= i <= |s|
    ensures ToLower(s[..i]) == ToLower(s)[..i]
  {
  }

  lemma LowerSuffix(s: string, j: int)
    requires 0 <= j <= |s|
    ensures ToLower(s[j..]) == ToLower(s)[j..]
  {
  }

  lemma LowerSlice(s: string, i: int, j: int)
    requires 0 <= i <= j <= |s|
    ensures ToLower(s[i..j]) == ToLower(s)[i..j]
  {
  }

  /** Lower-casing maps no letter to whitespace, so whitespace after it was
      whitespace before. */
  lemma WhitespaceOfLower(s: string)
    requires AllWhitespace(ToLower(s))
    ensures AllWhitespace(s)
  {
    forall i | 0 <= i < |s| ensures IsJsWhitespace(s[i]) {
      assert IsJsWhitespace(ToLower(s)[i]);
    }
  }

  lemma TruthyWordIsTrimmed(w: string)
    requires w in TruthyWords
    ensures Trim(w) == w
  {
    if w == "true" {
      assert w == ['t', 'r', 'u', 'e'];
    } else if w == "yes" {
      assert w == ['y', 'e', 's'];
    } else if w == "on" {
      assert w == ['o', 'n'];
    } else {
      assert w == ['1'];
    }
    TrimmedIsFixed(w);
  }

  lemma LowerOfWhitespace(p: string)
    requires AllWhitespace(p)
    ensures ToLower(p) == p
  {
  }

  lemma LowerOfConcat(a: string, b: string)
    ensures ToLower(a + b) == ToLower(a) + ToLower(b)
  {
  }

  /** The text light ignores surrounding whitespace. */
  lemma TextLightIgnoresPadding(p: string, s: string, q: string)
    requires AllWhitespace(p) && AllWhitespace(q)
    ensures DecodeTextLight(p + s + q) == DecodeTextLight(s)
  {
    LowerOfConcat(p + s, q);
    LowerOfConcat(p, s);
    LowerOfWhitespace(p);
    LowerOfWhitespace(q);
    TrimIgnoresPadding(p, ToLower(s), q);
  }

  lemma LowerOfUpper(s: string)
    ensures ToLower(ToUpper(s)) == ToLower(s)
  {
  }

  /** The text light does not depend on letter case. */
  lemma TextLightIgnoresCase(a: string, b: string)
    requires EqualsIgnoringCase(a, b)
    ensures DecodeTextLight(a) == DecodeTextLight(b)
  {
    LowerOfUpper(a);
    LowerOfUpper(b);
  }

  /** JSON API path (index.js:535, 569): the field is loosely equal to `true`. */
  function DecodeJsonLight(v: Option<JValue>): (r: bool)
    ensures v == Some(JBool(true)) ==> r
    ensures v.None? || v == Some(JBool(false)) || v == Some(JNull) ==> !r
  {
    LooselyTrue(v)
  }

  /** Every logged light state decodes back to itself on the text path. */
  lemma LightStateRoundTrip(on: bool)
    ensures DecodeTextLight(LightStateToString(on)) == on
  {
    TrimmedIsFixed(ToLower(LightStateToString(on)));
    assert ToLower("ON") == "on";
    assert ToLower("OFF") == "off";
    assert "on" in TruthyWords;
  }
}
