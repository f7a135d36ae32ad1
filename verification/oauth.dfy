/** The OAuth 1.0 signing of a request URL (index.js:712-769): the query of
    the URL and the `oauth_*` parameters are collected into one parameter
    object, its keys are sorted, the `key=value` pairs are joined into the
    parameter string, and the signature over method, base URL and parameter
    string is appended as `oauth_signature`. */
module OAuth {
  import opened Wrappers
  import opened Strings
  import opened Percent
  import opened CodeUnits
  import opened Config

  /** A JavaScript object with string values, as its own keys in insertion
      order with their values. */
  type Params = seq<(string, string)>

  function Keys(ps: Params): (r: set<string>)
    ensures forall k :: k in r <==> exists i :: 0 <= i < |ps| && ps[i].0 == k
  {
    if |ps| == 0 then {} else {ps[0].0} + Keys(ps[1..])
  }

  /** No key occurs twice, as in any JavaScript object. */
  predicate UniqueKeys(ps: Params) {
    |ps| == 0 || (ps[0].0 !in Keys(ps[1..]) && UniqueKeys(ps[1..]))
  }

  lemma {:induction false} KeysAppend(a: Params, b: Params)
    ensures Keys(a + b) == Keys(a) + Keys(b)
    ensures UniqueKeys(a + b) <==> UniqueKeys(a) && UniqueKeys(b) && Keys(a) !! Keys(b)
    decreases |a|
  {
    if |a| == 0 {
      assert a + b == b;
    } else {
      assert (a + b)[1..] == a[1..] + b;
      KeysAppend(a[1..], b);
    }
  }

  /** `ps[k]`; `None` stands for `undefined`. */
  function Lookup(ps: Params, k: string): (r: Option<string>)
    ensures r.None? <==> k !in Keys(ps)
    ensures r.Some? ==> (k, r.value) in ps
  {
    if |ps| == 0 then None
    else if ps[0].0 == k then Some(ps[0].1)
    else Lookup(ps[1..], k)
  }

  /** `ps[k] = v`: an existing key keeps its place and takes the new value,
      a new key is appended. */
  function Put(ps: Params, k: string, v: string): (r: Params)
    ensures Keys(r) == Keys(ps) + {k}
    ensures UniqueKeys(ps) ==> UniqueKeys(r)
    ensures Lookup(r, k) == Some(v)
    ensures forall k' :: k' != k ==> Lookup(r, k') == Lookup(ps, k')
  {
    if |ps| == 0 then [(k, v)]
    else if ps[0].0 == k then [(k, v)] + ps[1..]
    else [ps[0]] + Put(ps[1..], k, v)
  }

  /* ------------------------------------------------------------- the query */

  /** The value of one `key=value` piece: the text between the first and
      the second `=`, or "" when there is none (`queryParts[1] || ""`). */
  function PieceValue(parts: seq<string>): string {
    if |parts| >= 2 then parts[1] else ""
  }

  /** The parameters of a query string, read piece by piece; a later piece
      with the same key wins. */
  function QueryParameters(query: string): (r: Params)
    ensures UniqueKeys(r)
  {
    AddPieces([], Split(query, '&'))
  }

  function AddPieces(acc: Params, pieces: seq<string>): (r: Params)
    requires UniqueKeys(acc)
    ensures UniqueKeys(r)
    decreases |pieces|
  {
    if |pieces| == 0 then acc
    else
      var parts := Split(pieces[0], '=');
      AddPieces(Put(acc, parts[0], PieceValue(parts)), pieces[1..])
  }

  /** A parameter list as a query string: `k=v` pieces joined by `&`. */
  function QueryString(ps: Params): string {
    Join(Pairs(ps), '&')
  }

  function Pairs(ps: Params): (r: seq<string>)
    ensures |r| == |ps|
    ensures forall i :: 0 <= i < |ps| ==> r[i] == ps[i].0 + "=" + ps[i].1
  {
    if |ps| == 0 then [] else [ps[0].0 + "=" + ps[0].1] + Pairs(ps[1..])
  }

  /** No key or value contains a query separator. */
  predicate Clean(ps: Params) {
    forall i :: 0 <= i < |ps| ==>
      && '&' !in ps[i].0 && '=' !in ps[i].0
      && '&' !in ps[i].1 && '=' !in ps[i].1
  }

  /** Keys and values that survive a trip through a query string. */
  predicate QuerySafe(ps: Params) {
    |ps| >= 1 && UniqueKeys(ps) && Clean(ps)
  }

  lemma PairParts(k: string, v: string)
    requires '=' !in k && '=' !in v
    ensures Split(k + "=" + v, '=') == [k, v]
  {
    SplitSegment(k, '=', v);
    SplitWhole(v, '=');
  }

  /** Reading the first `k=v` piece of fresh key `k` appends `(k, v)`. */
  lemma AddFirstPair(acc: Params, ps: Params)
    requires UniqueKeys(acc) && |ps| > 0 && ps[0].0 !in Keys(acc)
    requires '=' !in ps[0].0 && '=' !in ps[0].1
    ensures UniqueKeys(acc + [ps[0]])
    ensures AddPieces(acc, Pairs(ps)) == AddPieces(acc + [ps[0]], Pairs(ps[1..]))
  {
    var k, v := ps[0].0, ps[0].1;
    PairParts(k, v);
    PutNewKey(acc, k, v);
    assert Pairs(ps) == [k + "=" + v] + Pairs(ps[1..]);
    assert Pairs(ps)[1..] == Pairs(ps[1..]);
  }

  lemma {:induction false} AddPiecesOfPairs(acc: Params, ps: Params)
    requires UniqueKeys(acc) && UniqueKeys(ps) && Keys(acc) !! Keys(ps)
    requires forall i :: 0 <= i < |ps| ==> '=' !in ps[i].0 && '=' !in ps[i].1
    ensures AddPieces(acc, Pairs(ps)) == acc + ps
    decreases |ps|
  {
    if |ps| == 0 {
      assert acc + ps == acc;
    } else {
      var acc' := acc + [ps[0]];
      assert ps[0].0 in Keys(ps);
      AddFirstPair(acc, ps);
      KeysAppend(acc, [ps[0]]);
      assert Keys(ps) == {ps[0].0} + Keys(ps[1..]);
      AddPiecesOfPairs(acc', ps[1..]);
      MoveFirst(acc, ps);
    }
  }

  lemma MoveFirst(acc: Params, ps: Params)
    requires |ps| > 0
    ensures (acc + [ps[0]]) + ps[1..] == acc + ps
  {
    assert ps == [ps[0]] + ps[1..];
  }

  lemma {:induction false} PutNewKey(acc: Params, k: string, v: string)
    requires k !in Keys(acc)
    ensures Put(acc, k, v) == acc + [(k, v)]
    decreases |acc|
  {
    if |acc| > 0 {
      assert Keys(acc) == {acc[0].0} + Keys(acc[1..]);
      assert Put(acc, k, v) == [acc[0]] + Put(acc[1..], k, v);
      PutNewKey(acc[1..], k, v);
      ConsAppend(acc, (k, v));
    }
  }

  lemma ConsAppend(acc: Params, p: (string, string))
    requires |acc| > 0
    ensures [acc[0]] + (acc[1..] + [p]) == acc + [p]
  {
    assert acc == [acc[0]] + acc[1..];
  }

  /** Reading a query string gives back the parameters it was written
      from, when no key repeats and no key or value contains `&` or `=`. */
  lemma QueryRoundTrip(ps: Params)
    requires QuerySafe(ps)
    ensures QueryParameters(QueryString(ps)) == ps
  {
    forall i | 0 <= i < |ps|
      ensures '&' !in Pairs(ps)[i]
    {
      assert Pairs(ps)[i] == ps[i].0 + "=" + ps[i].1;
    }
    SplitJoin(Pairs(ps), '&');
    assert [] + ps == ps;
    AddPiecesOfPairs([], ps);
  }

  lemma {:induction false} PutClean(ps: Params, k: string, v: string)
    requires Clean(ps)
    requires '&' !in k && '=' !in k && '&' !in v && '=' !in v
    ensures Clean(Put(ps, k, v))
    decreases |ps|
  {
    if |ps| > 0 && ps[0].0 != k {
      PutClean(ps[1..], k, v);
    }
  }

  lemma {:induction false} AddPiecesClean(acc: Params, pieces: seq<string>)
    requires UniqueKeys(acc) && Clean(acc)
    requires forall i :: 0 <= i < |pieces| ==> '&' !in pieces[i]
    ensures Clean(AddPieces(acc, pieces))
    decreases |pieces|
  {
    if |pieces| > 0 {
      var parts := Split(pieces[0], '=');
      SplitAvoids(pieces[0], '=', '&');
      PutClean(acc, parts[0], PieceValue(parts));
      AddPiecesClean(Put(acc, parts[0], PieceValue(parts)), pieces[1..]);
    }
  }

  /** Whatever the query string, the parameters read from it contain no
      separator: keys and values are pieces between separators. */
  lemma QueryParametersClean(query: string)
    ensures Clean(QueryParameters(query))
  {
    AddPiecesClean([], Split(query, '&'));
  }

  /** A repeated key keeps the value of its last occurrence. */
  lemma LaterPieceWins(acc: Params, k: string, v1: string, v2: string)
    requires UniqueKeys(acc)
    requires '&' !in k && '=' !in k && '&' !in v1 && '=' !in v1 && '&' !in v2 && '=' !in v2
    ensures Lookup(AddPieces(acc, [k + "=" + v1, k + "=" + v2]), k) == Some(v2)
  {
    PairParts(k, v1);
    PairParts(k, v2);
    var once := Put(acc, k, v1);
    assert AddPieces(acc, [k + "=" + v1, k + "=" + v2]) == AddPieces(once, [k + "=" + v2]);
  }

  /* ------------------------------------------------------- sorting the keys */

  predicate SortedByKey(ps: Params) {
    forall i, j :: 0 <= i < j < |ps| ==> StrLess(ps[i].0, ps[j].0)
  }

  /** Sorted keys are in particular distinct. */
  lemma {:induction false} SortedHasUniqueKeys(ps: Params)
    requires SortedByKey(ps)
    ensures UniqueKeys(ps)
    decreases |ps|
  {
    if |ps| > 0 {
      SortedHasUniqueKeys(ps[1..]);
      if ps[0].0 in Keys(ps[1..]) {
        var i :| 0 <= i < |ps[1..]| && ps[1..][i].0 == ps[0].0;
        assert StrLess(ps[0].0, ps[i + 1].0);
        StrLessIrreflexive(ps[0].0);
      }
    }
  }

  /** In a sorted list the first key precedes every later one. */
  lemma SortedHeadFirst(ps: Params, k: string)
    requires SortedByKey(ps) && |ps| > 0 && k in Keys(ps[1..])
    ensures StrLess(ps[0].0, k)
  {
    var i :| 0 <= i < |ps[1..]| && ps[1..][i].0 == k;
    assert ps[i + 1].0 == k;
  }

  lemma ConsSorted(x: (string, string), ps: Params)
    requires SortedByKey(ps)
    requires forall j :: 0 <= j < |ps| ==> StrLess(x.0, ps[j].0)
    ensures SortedByKey([x] + ps)
  {
    var r := [x] + ps;
    forall i, j | 0 <= i < j < |r|
      ensures StrLess(r[i].0, r[j].0)
    {
      assert r[j] == ps[j - 1];
      if i > 0 {
        assert r[i] == ps[i - 1];
      }
    }
  }

  /** A key below the first key of a sorted list is below all of them. */
  lemma BelowHead(k: string, ps: Params)
    requires SortedByKey(ps) && |ps| > 0 && StrLess(k, ps[0].0)
    ensures forall j :: 0 <= j < |ps| ==> StrLess(k, ps[j].0)
  {
    forall j | 0 < j < |ps| ensures StrLess(k, ps[j].0) {
      StrLessTransitive(k, ps[0].0, ps[j].0);
    }
  }

  /** The first key of a sorted list is below every key inserted after it. */
  lemma HeadBelowInserted(ps: Params, p: (string, string), rest: Params)
    requires SortedByKey(ps) && |ps| > 0 && StrLess(ps[0].0, p.0)
    requires Keys(rest) == Keys(ps[1..]) + {p.0}
    ensures forall j :: 0 <= j < |rest| ==> StrLess(ps[0].0, rest[j].0)
  {
    forall j | 0 <= j < |rest| ensures StrLess(ps[0].0, rest[j].0) {
      assert rest[j].0 in Keys(rest);
      if rest[j].0 != p.0 {
        SortedHeadFirst(ps, rest[j].0);
      }
    }
  }

  function Insert(p: (string, string), ps: Params): (r: Params)
    requires SortedByKey(ps) && p.0 !in Keys(ps)
    ensures SortedByKey(r)
    ensures Keys(r) == Keys(ps) + {p.0}
    decreases |ps|
  {
    if |ps| == 0 then [p]
    else if StrLess(p.0, ps[0].0) then
      BelowHead(p.0, ps);
      ConsSorted(p, ps);
      [p] + ps
    else
      assert Keys(ps) == {ps[0].0} + Keys(ps[1..]);
      StrLessTotal(p.0, ps[0].0);
      assert ps == [ps[0]] + ps[1..];
      var rest := Insert(p, ps[1..]);
      HeadBelowInserted(ps, p, rest);
      ConsSorted(ps[0], rest);
      assert ([ps[0]] + rest)[1..] == rest;
      [ps[0]] + rest
  }

  /** `Object.keys(ps).sort()`, with each key's value alongside: the same
      entries in code-unit order of their keys. */
  function SortByKey(ps: Params): (r: Params)
    requires UniqueKeys(ps)
    ensures SortedByKey(r)
    ensures Keys(r) == Keys(ps)
    decreases |ps|
  {
    if |ps| == 0 then []
    else
      assert ps == [ps[0]] + ps[1..];
      assert Keys(ps) == {ps[0].0} + Keys(ps[1..]);
      var rest := SortByKey(ps[1..]);
      Insert(ps[0], rest)
  }

  /** Inserting adds exactly the one entry. */
  lemma {:induction false} InsertAddsEntry(p: (string, string), ps: Params)
    requires SortedByKey(ps) && p.0 !in Keys(ps)
    ensures multiset(Insert(p, ps)) == multiset(ps) + multiset{p}
    decreases |ps|
  {
    if |ps| > 0 && !StrLess(p.0, ps[0].0) {
      assert Keys(ps) == {ps[0].0} + Keys(ps[1..]);
      assert ps == [ps[0]] + ps[1..];
      InsertAddsEntry(p, ps[1..]);
    }
  }

  /** Sorting reorders the entries and neither drops nor adds any. */
  lemma {:induction false} SortPermutes(ps: Params)
    requires UniqueKeys(ps)
    ensures multiset(SortByKey(ps)) == multiset(ps)
    decreases |ps|
  {
    if |ps| > 0 {
      assert ps == [ps[0]] + ps[1..];
      assert Keys(ps) == {ps[0].0} + Keys(ps[1..]);
      SortPermutes(ps[1..]);
      InsertAddsEntry(ps[0], SortByKey(ps[1..]));
    }
  }

  /** The sorted parameters hold the same key-value pairs. */
  lemma SortKeepsLookups(ps: Params, k: string)
    requires UniqueKeys(ps)
    ensures Lookup(SortByKey(ps), k) == Lookup(ps, k)
  {
    var r := SortByKey(ps);
    SortPermutes(ps);
    SortedHasUniqueKeys(r);
    if Lookup(ps, k).Some? {
      var v := Lookup(ps, k).value;
      assert (k, v) in multiset(r);
      LookupOfMember(r, k, v);
    }
  }

  lemma {:induction false} LookupOfMember(ps: Params, k: string, v: string)
    requires UniqueKeys(ps) && (k, v) in ps
    ensures Lookup(ps, k) == Some(v)
    decreases |ps|
  {
    if ps[0] != (k, v) {
      assert (k, v) in ps[1..];
      assert k in Keys(ps[1..]);
      LookupOfMember(ps[1..], k, v);
    }
  }

  /* --------------------------------------------------------- the signature */

  /** The parameter string: every `key=value&` in order, then the last
      character (the trailing `&`) sliced off. */
  function ParameterString(ps: Params): string {
    DropLast(Terminated(ps))
  }

  function Terminated(ps: Params): string {
    if |ps| == 0 then "" else ps[0].0 + "=" + ps[0].1 + "&" + Terminated(ps[1..])
  }

  /** Building the string with a trailing separator and dropping it gives
      the `&`-joined pairs. */
  lemma {:induction false} ParameterStringIsQueryString(ps: Params)
    ensures ParameterString(ps) == QueryString(ps)
    decreases |ps|
  {
    if |ps| == 1 {
      assert Terminated(ps[1..]) == "";
    } else if |ps| > 1 {
      ParameterStringIsQueryString(ps[1..]);
      var t := Terminated(ps[1..]);
      assert |t| > 0 && t[|t| - 1] == '&' by { TerminatedEndsWithSeparator(ps[1..]); }
      var head := ps[0].0 + "=" + ps[0].1;
      assert Terminated(ps) == head + "&" + t;
      assert DropLast(head + "&" + t) == head + "&" + DropLast(t);
      assert Pairs(ps)[1..] == Pairs(ps[1..]);
    }
  }

  lemma TerminatedEndsWithSeparator(ps: Params)
    requires |ps| > 0
    ensures var t := Terminated(ps); |t| > 0 && t[|t| - 1] == '&'
    decreases |ps|
  {
    if |ps| > 1 {
      TerminatedEndsWithSeparator(ps[1..]);
    }
  }

  /** The signing key: the encoded consumer secret and token secret. */
  function SigningKey(o: OAuthSettings): string {
    PercentEncode(o.consumerSecret) + "&" + PercentEncode(o.tokenSecret.GetOr(""))
  }

  /** The signature base string: encoded method, base URL and parameter
      string. */
  function SignatureBase(verb: string, baseUrl: string, params: string): string {
    PercentEncode(verb) + "&" + PercentEncode(baseUrl) + "&" + PercentEncode(params)
  }

  lemma NoAmpersand(s: string)
    ensures '&' !in PercentEncode(s)
  {
    var r := PercentEncode(s);
    assert forall i :: 0 <= i < |r| ==> r[i] != '&';
  }

  /** The signature base string splits back into its three encoded parts,
      since encoding leaves no `&` behind. */
  lemma SignatureBaseParts(verb: string, baseUrl: string, params: string)
    ensures Split(SignatureBase(verb, baseUrl, params), '&')
            == [PercentEncode(verb), PercentEncode(baseUrl), PercentEncode(params)]
  {
    var a, b, c := PercentEncode(verb), PercentEncode(baseUrl), PercentEncode(params);
    NoAmpersand(verb);
    NoAmpersand(baseUrl);
    NoAmpersand(params);
    assert a + "&" + b + "&" + c == a + ['&'] + (b + ['&'] + c);
    SplitSegment(a, '&', b + ['&'] + c);
    SplitSegment(b, '&', c);
    SplitWhole(c, '&');
  }

  /** The signing key splits back into the two encoded secrets. */
  lemma SigningKeyParts(o: OAuthSettings)
    ensures Split(SigningKey(o), '&')
            == [PercentEncode(o.consumerSecret), PercentEncode(o.tokenSecret.GetOr(""))]
  {
    NoAmpersand(o.consumerSecret);
    NoAmpersand(o.tokenSecret.GetOr(""));
    SplitSegment(PercentEncode(o.consumerSecret), '&', PercentEncode(o.tokenSecret.GetOr("")));
    SplitWhole(PercentEncode(o.tokenSecret.GetOr("")), '&');
  }

  /** The two hash functions the accessory computes HMACs with. */
  datatype Hash = Sha1 | Sha256

  /** A request that could not be sent because building it threw: an
      undefined method has no `toUpperCase`, and the PLAINTEXT branch calls
      `base64encode`, which is not defined (the helper is `base64Encode`). */
  datatype RequestFault = MethodUndefined | PlaintextUndefined

  /** The signature; `hmac(hash, key, text)` is the base64 HMAC digest,
      computed outside the model. */
  function Sign(m: SignatureMethod, hmac: (Hash, string, string) -> string, key: string, text: string)
    : (r: Result<string, RequestFault>)
    ensures m == Plaintext <==> r == Failure(PlaintextUndefined)
    ensures m == HmacSha1 ==> r == Success(hmac(Sha1, key, text))
    ensures m == HmacSha256 ==> r == Success(hmac(Sha256, key, text))
  {
    match m
    case HmacSha1 => Success(hmac(Sha1, key, text))
    case HmacSha256 => Success(hmac(Sha256, key, text))
    case Plaintext => Failure(PlaintextUndefined)
  }

  /** `ps[k] = v` for each entry of `es` in turn. */
  function PutAll(ps: Params, es: Params): (r: Params)
    ensures UniqueKeys(ps) ==> UniqueKeys(r)
    ensures Keys(r) == Keys(ps) + Keys(es)
    decreases |es|
  {
    if |es| == 0 then ps else PutAll(Put(ps, es[0].0, es[0].1), es[1..])
  }

  /** After the assignments an assigned key has its assigned value and any
      other key its old one. */
  lemma {:induction false} PutAllLookup(ps: Params, es: Params, k: string)
    requires UniqueKeys(es)
    ensures Lookup(PutAll(ps, es), k) == if k in Keys(es) then Lookup(es, k) else Lookup(ps, k)
    decreases |es|
  {
    if |es| > 0 {
      PutAllLookup(Put(ps, es[0].0, es[0].1), es[1..], k);
    }
  }

  /** The `oauth_*` entries, in the order the code assigns them; `nonce` is
      the base64 text of the random bytes and `timestamp` the seconds since
      the epoch. */
  function OAuthEntries(o: OAuthSettings, nonce: string, timestamp: nat): (r: Params)
    ensures UniqueKeys(r)
    ensures |r| == 6 && r[5] == ("oauth_timestamp", NatToString(timestamp))
    ensures forall i :: 0 <= i < 6 ==> r[i].0 == OAuthKeyNames[i]
  {
    TimestampIsUnescaped(timestamp);
    var values := ["1.0a",
                   PercentEncode(o.token.GetOr("")),
                   PercentEncode(o.consumerKey),
                   PercentEncode(SignatureMethodName(o.signatureMethod)),
                   PercentEncode(nonce),
                   PercentEncode(NatToString(timestamp))];
    OAuthKeysInOrder(values)
  }

  lemma TimestampIsUnescaped(timestamp: nat)
    ensures PercentEncode(NatToString(timestamp)) == NatToString(timestamp)
  {
    DigitsAreUnchanged(NatToString(timestamp));
  }

  /** The `oauth_*` names paired, in order, with their values. */
  function OAuthKeysInOrder(values: seq<string>): (r: Params)
    requires |values| == 6
    ensures UniqueKeys(r) && |r| == 6
    ensures forall i :: 0 <= i < 6 ==> r[i] == (OAuthKeyNames[i], values[i])
  {
    var r := seq(6, i requires 0 <= i < 6 => (OAuthKeyNames[i], values[i]));
    OAuthKeyNamesDistinct();
    DistinctKeysAreUnique(r);
    r
  }

  const OAuthKeyNames: seq<string> := ["oauth_version", "oauth_token", "oauth_consumer_key",
                                       "oauth_signature_method", "oauth_nonce", "oauth_timestamp"]

  lemma OAuthKeyNamesDistinct()
    ensures forall i, j :: 0 <= i < j < |OAuthKeyNames| ==> OAuthKeyNames[i] != OAuthKeyNames[j]
  {
    var n := OAuthKeyNames;
    assert |n[0]| == 13 && |n[1]| == 11 && |n[2]| == 18 && |n[3]| == 22 && |n[4]| == 11 && |n[5]| == 15;
    assert n[1][6] != n[4][6];
  }

  lemma {:induction false} DistinctKeysAreUnique(ps: Params)
    requires forall i, j :: 0 <= i < j < |ps| ==> ps[i].0 != ps[j].0
    ensures UniqueKeys(ps)
    decreases |ps|
  {
    if |ps| > 0 {
      DistinctKeysAreUnique(ps[1..]);
      assert forall i :: 0 <= i < |ps[1..]| ==> ps[1..][i].0 != ps[0].0;
    }
  }

  /** The parameter object once the `oauth_*` entries are set. */
  function WithOAuthParameters(query: Params, o: OAuthSettings, nonce: string, timestamp: nat): (r: Params)
    requires UniqueKeys(query)
    ensures UniqueKeys(r)
  {
    PutAll(query, OAuthEntries(o, nonce, timestamp))
  }

  /** Every `oauth_*` parameter carries the value the code assigns, taking
      the place of a query parameter of the same name; every other query
      parameter is kept. */
  lemma OAuthParametersSet(query: Params, o: OAuthSettings, nonce: string, timestamp: nat, k: string)
    requires UniqueKeys(query)
    ensures var es := OAuthEntries(o, nonce, timestamp);
            Lookup(WithOAuthParameters(query, o, nonce, timestamp), k)
            == if k in Keys(es) then Lookup(es, k) else Lookup(query, k)
  {
    PutAllLookup(query, OAuthEntries(o, nonce, timestamp), k);
  }

  lemma {:induction false} PutAllClean(ps: Params, es: Params)
    requires Clean(ps) && Clean(es)
    ensures Clean(PutAll(ps, es))
    decreases |es|
  {
    if |es| > 0 {
      PutClean(ps, es[0].0, es[0].1);
      assert Clean(es[1..]) by {
        forall i | 0 <= i < |es[1..]| ensures es[1..][i] == es[i + 1] { }
      }
      PutAllClean(Put(ps, es[0].0, es[0].1), es[1..]);
    }
  }

  lemma NoSeparators(s: string)
    ensures '&' !in PercentEncode(s) && '=' !in PercentEncode(s)
  {
    var r := PercentEncode(s);
    assert forall i :: 0 <= i < |r| ==> r[i] != '&' && r[i] != '=';
  }

  /** The `oauth_*` names are plain words and their values are
      percent-encoded, so none holds a separator. */
  lemma OAuthEntriesClean(o: OAuthSettings, nonce: string, timestamp: nat)
    ensures Clean(OAuthEntries(o, nonce, timestamp))
  {
    var es := OAuthEntries(o, nonce, timestamp);
    OAuthKeyNamesPlain();
    forall i | 0 <= i < |es|
      ensures '&' !in es[i].0 && '=' !in es[i].0 && '&' !in es[i].1 && '=' !in es[i].1
    {
      assert es[i].0 == OAuthKeyNames[i];
      if i == 0 {
        VersionPlain();
      } else if i == 1 {
        NoSeparators(o.token.GetOr(""));
      } else if i == 2 {
        NoSeparators(o.consumerKey);
      } else if i == 3 {
        NoSeparators(SignatureMethodName(o.signatureMethod));
      } else if i == 4 {
        NoSeparators(nonce);
      } else {
        NoSeparators(NatToString(timestamp));
      }
    }
  }

  lemma VersionPlain()
    ensures '&' !in "1.0a" && '=' !in "1.0a"
  {
    assert "1.0a" == ['1', '.', '0', 'a'];
  }

  lemma OAuthKeyNamesPlain()
    ensures forall i :: 0 <= i < |OAuthKeyNames| ==> '&' !in OAuthKeyNames[i] && '=' !in OAuthKeyNames[i]
  {
    forall i | 0 <= i < |OAuthKeyNames|
      ensures '&' !in OAuthKeyNames[i] && '=' !in OAuthKeyNames[i]
    {
      var n := OAuthKeyNames[i];
      assert forall j :: 0 <= j < |n| ==> 'a' <= n[j] <= 'z' || n[j] == '_';
    }
  }

  /** Sorting only reorders entries, so it keeps them free of separators. */
  lemma SortClean(ps: Params)
    requires UniqueKeys(ps) && Clean(ps)
    ensures Clean(SortByKey(ps))
  {
    var r := SortByKey(ps);
    SortPermutes(ps);
    forall i | 0 <= i < |r|
      ensures '&' !in r[i].0 && '=' !in r[i].0 && '&' !in r[i].1 && '=' !in r[i].1
    {
      assert r[i] in multiset(ps);
      var j :| 0 <= j < |ps| && ps[j] == r[i];
    }
  }

  /** The URL once signed: the base URL, the sorted parameter string and the
      encoded signature. The signature base is computed before
      `oauth_signature` is added, so it does not cover it. */
  function SignedUrl(verb: string, baseUrl: string, query: Params, o: OAuthSettings,
                     hmac: (Hash, string, string) -> string, nonce: string, timestamp: nat)
    : (r: Result<string, RequestFault>)
    requires UniqueKeys(query)
    ensures r.Failure? <==> o.signatureMethod == Plaintext
  {
    SignSorted(verb, baseUrl, SortByKey(WithOAuthParameters(query, o, nonce, timestamp)), o, hmac)
  }

  /** The URL carrying the sorted parameters and their signature. */
  function SignSorted(verb: string, baseUrl: string, sorted: Params, o: OAuthSettings,
                      hmac: (Hash, string, string) -> string)
    : (r: Result<string, RequestFault>)
    ensures r.Failure? <==> o.signatureMethod == Plaintext
  {
    var params := ParameterString(sorted);
    var sig :- Sign(o.signatureMethod, hmac, SigningKey(o), SignatureBase(verb, baseUrl, params));
    Success(baseUrl + "?" + params + "&oauth_signature=" + PercentEncode(sig))
  }

  /** The key the signature is sent under, which the signed parameters
      never use. */
  lemma SignatureKeyIsFresh()
    ensures "oauth_signature" !in OAuthKeyNames
  {
    var n := OAuthKeyNames;
    assert |n[0]| == 13 && |n[1]| == 11 && |n[2]| == 18 && |n[3]| == 22 && |n[4]| == 11 && |n[5]| == 15;
    assert n[5][6] != "oauth_signature"[6];
  }

  lemma {:induction false} QueryStringAppend(ps: Params, k: string, v: string)
    requires |ps| >= 1
    ensures QueryString(ps + [(k, v)]) == QueryString(ps) + "&" + k + "=" + v
  {
    assert Pairs(ps + [(k, v)]) == Pairs(ps) + [k + "=" + v];
    JoinAppend(Pairs(ps), k + "=" + v, '&');
  }

  /** The signed parameters, free of separators, with no `oauth_signature`
      among them. */
  lemma SignedParametersSafe(query: Params, o: OAuthSettings, nonce: string, timestamp: nat)
    requires UniqueKeys(query) && Clean(query) && "oauth_signature" !in Keys(query)
    ensures var sorted := SortByKey(WithOAuthParameters(query, o, nonce, timestamp));
            QuerySafe(sorted) && "oauth_signature" !in Keys(sorted)
  {
    var es := OAuthEntries(o, nonce, timestamp);
    OAuthEntriesClean(o, nonce, timestamp);
    SignatureKeyIsFresh();
    assert "oauth_signature" !in Keys(es) by {
      forall i | 0 <= i < |es| ensures es[i].0 != "oauth_signature" {
        assert es[i].0 == OAuthKeyNames[i];
      }
    }
    PutAllSafe(query, es, "oauth_signature");
  }

  lemma PutAllSafe(query: Params, es: Params, key: string)
    requires UniqueKeys(query) && Clean(query) && Clean(es) && |es| >= 1
    requires key !in Keys(query) && key !in Keys(es)
    ensures var sorted := SortByKey(PutAll(query, es));
            QuerySafe(sorted) && key !in Keys(sorted)
  {
    var ps := PutAll(query, es);
    PutAllClean(query, es);
    SortClean(ps);
    SortedHasUniqueKeys(SortByKey(ps));
    assert es[0].0 in Keys(es);
  }

  lemma QuerySlices(a: string, b: string)
    ensures |a + "?" + b| > |a|
    ensures (a + "?" + b)[..|a| + 1] == a + "?" && (a + "?" + b)[|a| + 1..] == b
  {
  }

  /** The signed parameter string followed by the signature is the query
      string of the signed parameters with the signature appended. */
  lemma SignedTail(sorted: Params, v: string)
    requires |sorted| >= 1
    ensures ParameterString(sorted) + "&oauth_signature=" + v
            == QueryString(sorted + [("oauth_signature", v)])
  {
    ParameterStringIsQueryString(sorted);
    QueryStringAppend(sorted, "oauth_signature", v);
  }

  lemma ReadSignedTail(sorted: Params, v: string)
    requires QuerySafe(sorted) && "oauth_signature" !in Keys(sorted)
    requires '&' !in v && '=' !in v
    ensures QueryParameters(ParameterString(sorted) + "&oauth_signature=" + v)
            == sorted + [("oauth_signature", v)]
  {
    var entry := ("oauth_signature", v);
    SignedTail(sorted, v);
    SignedEntrySafe(sorted, v);
    QueryRoundTrip(sorted + [entry]);
  }

  /** Appending the signature keeps the parameters safe to read back. */
  lemma SignedEntrySafe(sorted: Params, v: string)
    requires QuerySafe(sorted) && "oauth_signature" !in Keys(sorted)
    requires '&' !in v && '=' !in v
    ensures QuerySafe(sorted + [("oauth_signature", v)])
  {
    var entry := ("oauth_signature", v);
    KeysAppend(sorted, [entry]);
    assert "oauth_signature" == ['o', 'a', 'u', 't', 'h', '_', 's', 'i', 'g', 'n', 'a', 't', 'u', 'r', 'e'];
    assert forall i :: 0 <= i < |sorted| ==> (sorted + [entry])[i] == sorted[i];
  }

  /** A server reading the query of a signed URL finds exactly the
      parameters that were signed, in sorted order, followed by the
      signature; the text before the `?` is the signed base URL. */
  lemma SignSortedReadsBack(verb: string, baseUrl: string, sorted: Params, o: OAuthSettings,
                            hmac: (Hash, string, string) -> string)
    requires QuerySafe(sorted) && "oauth_signature" !in Keys(sorted)
    requires o.signatureMethod != Plaintext
    ensures var r := SignSorted(verb, baseUrl, sorted, o, hmac);
            var sig := Sign(o.signatureMethod, hmac, SigningKey(o),
                            SignatureBase(verb, baseUrl, ParameterString(sorted)));
            && r.Success? && sig.Success?
            && |r.value| > |baseUrl| && r.value[..|baseUrl| + 1] == baseUrl + "?"
            && QueryParameters(r.value[|baseUrl| + 1..])
               == sorted + [("oauth_signature", PercentEncode(sig.value))]
  {
    var params := ParameterString(sorted);
    var sig := Sign(o.signatureMethod, hmac, SigningKey(o), SignatureBase(verb, baseUrl, params));
    var v := PercentEncode(sig.value);
    var tail := params + "&oauth_signature=" + v;
    NoSeparators(sig.value);
    ReadSignedTail(sorted, v);
    SignSortedValue(verb, baseUrl, sorted, o, hmac);
    QuerySlices(baseUrl, tail);
  }

  lemma SignSortedValue(verb: string, baseUrl: string, sorted: Params, o: OAuthSettings,
                        hmac: (Hash, string, string) -> string)
    requires o.signatureMethod != Plaintext
    ensures var params := ParameterString(sorted);
            var sig := Sign(o.signatureMethod, hmac, SigningKey(o), SignatureBase(verb, baseUrl, params));
            && sig.Success? && SignSorted(verb, baseUrl, sorted, o, hmac).Success?
            && SignSorted(verb, baseUrl, sorted, o, hmac).value
               == baseUrl + "?" + (params + "&oauth_signature=" + PercentEncode(sig.value))
  {
    var params := ParameterString(sorted);
    var sig := Sign(o.signatureMethod, hmac, SigningKey(o), SignatureBase(verb, baseUrl, params));
    assert sig.Success?;
    SignedUrlGrouping(baseUrl, params, PercentEncode(sig.value));
  }

  lemma SignedUrlGrouping(baseUrl: string, params: string, v: string)
    ensures baseUrl + "?" + params + "&oauth_signature=" + v
            == baseUrl + "?" + (params + "&oauth_signature=" + v)
  {
  }

  /** The same for the URL built from a request's own query: its query
      reads back as the sorted signed parameters plus the signature. */
  lemma SignedQueryReadsBack(verb: string, baseUrl: string, query: Params, o: OAuthSettings,
                             hmac: (Hash, string, string) -> string, nonce: string, timestamp: nat)
    requires UniqueKeys(query) && Clean(query) && "oauth_signature" !in Keys(query)
    requires o.signatureMethod != Plaintext
    ensures var r := SignedUrl(verb, baseUrl, query, o, hmac, nonce, timestamp);
            var sorted := SortByKey(WithOAuthParameters(query, o, nonce, timestamp));
            var sig := Sign(o.signatureMethod, hmac, SigningKey(o),
                            SignatureBase(verb, baseUrl, ParameterString(sorted)));
            && r.Success? && sig.Success?
            && |r.value| > |baseUrl| && r.value[..|baseUrl| + 1] == baseUrl + "?"
            && QueryParameters(r.value[|baseUrl| + 1..])
               == sorted + [("oauth_signature", PercentEncode(sig.value))]
  {
    SignedParametersSafe(query, o, nonce, timestamp);
    SignSortedReadsBack(verb, baseUrl, SortByKey(WithOAuthParameters(query, o, nonce, timestamp)), o, hmac);
  }
}
