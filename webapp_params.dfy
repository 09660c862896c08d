/** The hash and query-string parser of the Telegram web-app launcher
    (src/helpers/telegram-webapp.ts). `decodeURIComponent` is a parameter: a
    partial function whose `None` is the `URIError` it throws on a malformed
    escape. A parameter map holds `Some(text)` for a string value and `None`
    for the `null` of a name without `=`. */
module TelegramWebApp {
  import opened Wrappers
  import opened JsStrings

  /** `decodeURIComponent`: `None` when it throws. */
  type Decoder = string -> Option<string>

  type Params = map<string, Option<string>>

  // ---------------------------------------------------------------------
  // urlSafeDecode (lines 1-8)
  // ---------------------------------------------------------------------

  /** Every `+` becomes `%20` before decoding; when decoding throws, the
      text with the `+` already replaced is returned. */
  function SafeDecode(decode: Decoder, s: string): string {
    var replaced := ReplaceChar(s, '+', "%20");
    match decode(replaced)
    case Some(d) => d
    case None => replaced
  }

  /** A failed decode returns the rewritten text: it has no `+` left, so it
      differs from an input that had one. */
  lemma SafeDecodeFallback(decode: Decoder, s: string)
    requires decode(ReplaceChar(s, '+', "%20")).None?
    ensures SafeDecode(decode, s) == ReplaceChar(s, '+', "%20")
    ensures '+' !in SafeDecode(decode, s)
    ensures '+' in s ==> SafeDecode(decode, s) != s
    ensures '+' !in s ==> SafeDecode(decode, s) == s
  {
    ReplaceCharProperties(s, '+', "%20");
  }

  // ---------------------------------------------------------------------
  // urlParseQueryString (lines 33-47)
  // ---------------------------------------------------------------------

  /** The name of a `&`-separated piece: its text before the first `=`,
      decoded. */
  function ParamName(decode: Decoder, piece: string): string {
    SafeDecode(decode, Split(piece, '=')[0])
  }

  /** The value of a piece: `null` without `=`, else the decoded text
      between the first and the second `=`. */
  function ParamValue(decode: Decoder, piece: string): Option<string> {
    var parts := Split(piece, '=');
    if |parts| < 2 then None else Some(SafeDecode(decode, parts[1]))
  }

  /** The map after the loop has stored the pieces in order, each under its
      name. */
  function CollectParams(decode: Decoder, pieces: seq<string>): Params
    decreases |pieces|
  {
    if |pieces| == 0 then map[]
    else
      var last := pieces[|pieces| - 1];
      CollectParams(decode, pieces[..|pieces| - 1])[ParamName(decode, last) := ParamValue(decode, last)]
  }

  /** What `urlParseQueryString` returns. */
  function QueryParams(decode: Decoder, queryString: string): Params {
    if |queryString| == 0 then map[] else CollectParams(decode, Split(queryString, '&'))
  }

  /** The loop of lines 38-45. */
  method UrlParseQueryString(decode: Decoder, queryString: string) returns (params: Params)
    ensures params == QueryParams(decode, queryString)
  {
    params := map[];
    if |queryString| == 0 {
      return;
    }
    var pieces := Split(queryString, '&');
    var i := 0;
    while i < |pieces|
      invariant 0 <= i <= |pieces|
      invariant params == CollectParams(decode, pieces[..i])
    {
      var param := Split(pieces[i], '=');
      var name := SafeDecode(decode, param[0]);
      var value := if |param| < 2 then None else Some(SafeDecode(decode, param[1]));
      assert pieces[..i + 1][..i] == pieces[..i];
      params := params[name := value];
      i := i + 1;
    }
    assert pieces[..i] == pieces;
  }

  /** A name is present exactly when some piece has it. */
  lemma {:induction false} CollectParamsKeys(decode: Decoder, pieces: seq<string>)
    ensures forall i :: 0 <= i < |pieces| ==> ParamName(decode, pieces[i]) in CollectParams(decode, pieces)
    ensures forall k :: k in CollectParams(decode, pieces) ==>
      exists i :: 0 <= i < |pieces| && ParamName(decode, pieces[i]) == k
    decreases |pieces|
  {
    if |pieces| > 0 {
      var prefix := pieces[..|pieces| - 1];
      CollectParamsKeys(decode, prefix);
      forall i | 0 <= i < |pieces| ensures ParamName(decode, pieces[i]) in CollectParams(decode, pieces) {
        if i < |pieces| - 1 {
          assert pieces[i] == prefix[i];
        }
      }
      forall k | k in CollectParams(decode, pieces)
        ensures exists i :: 0 <= i < |pieces| && ParamName(decode, pieces[i]) == k
      {
        if k != ParamName(decode, pieces[|pieces| - 1]) {
          var i :| 0 <= i < |prefix| && ParamName(decode, prefix[i]) == k;
          assert pieces[i] == prefix[i];
        }
      }
    }
  }

  /** A duplicate name keeps the value of its last piece. */
  lemma {:induction false} CollectParamsLastWins(decode: Decoder, pieces: seq<string>, i: nat)
    requires i < |pieces|
    requires forall j :: i < j < |pieces| ==> ParamName(decode, pieces[j]) != ParamName(decode, pieces[i])
    ensures ParamName(decode, pieces[i]) in CollectParams(decode, pieces)
    ensures CollectParams(decode, pieces)[ParamName(decode, pieces[i])] == ParamValue(decode, pieces[i])
    decreases |pieces|
  {
    if i < |pieces| - 1 {
      var prefix := pieces[..|pieces| - 1];
      assert prefix[i] == pieces[i];
      forall j | i < j < |prefix| ensures ParamName(decode, prefix[j]) != ParamName(decode, prefix[i]) {
        assert prefix[j] == pieces[j];
      }
      CollectParamsLastWins(decode, prefix, i);
    }
  }

  /** A piece without `=`, the empty piece of `&&` among them, has a `null`
      value. */
  lemma ParamWithoutEquals(decode: Decoder, a: string)
    requires '=' !in a
    ensures ParamName(decode, a) == SafeDecode(decode, a)
    ensures ParamValue(decode, a) == None
  {
    SplitWithoutSeparator(a, '=');
  }

  /** A piece `a=b`: the name is `a` decoded and the value is the part of `b`
      before any further `=`, decoded (so `a=` gives a string, not `null`,
      and `a=b=c` drops `=c`). */
  lemma ParamWithEquals(decode: Decoder, a: string, b: string)
    requires '=' !in a
    ensures ParamName(decode, a + "=" + b) == SafeDecode(decode, a)
    ensures ParamValue(decode, a + "=" + b) == Some(SafeDecode(decode, Split(b, '=')[0]))
  {
    assert a + "=" + b == a + ['='] + b;
    SplitAfterSeparator(a, b, '=');
  }

  /** The edge cases of a piece: `a=` has the empty string as its value, not
      `null`; in `a=b=c` the part after the second `=` is dropped; the empty
      piece between `&&` is the empty name with a `null` value. */
  lemma ParamEdgeCases(decode: Decoder, a: string, b: string, c: string)
    requires '=' !in a && '=' !in b
    ensures ParamValue(decode, a + "=") == Some(SafeDecode(decode, ""))
    ensures ParamValue(decode, a + "=" + b + "=" + c) == Some(SafeDecode(decode, b))
    ensures ParamName(decode, "") == SafeDecode(decode, "") && ParamValue(decode, "") == None
  {
    ParamWithEquals(decode, a, "");
    assert a + "=" + "" == a + "=";
    SplitWithoutSeparator("", '=');
    ParamWithEquals(decode, a, b + "=" + c);
    assert a + "=" + b + "=" + c == a + "=" + (b + "=" + c);
    SplitAfterSeparator(b, c, '=');
    assert b + "=" + c == b + ['='] + c;
    ParamWithoutEquals(decode, "");
  }

  /** The value is `null` exactly when the piece has no `=`. */
  lemma ParamValueNull(decode: Decoder, piece: string)
    ensures ParamValue(decode, piece).None? <==> '=' !in piece
  {
    if '=' in piece {
      SplitFirstPiece(piece, '=');
    } else {
      SplitWithoutSeparator(piece, '=');
    }
  }

  // ---------------------------------------------------------------------
  // urlParseHashParams (lines 10-31)
  // ---------------------------------------------------------------------

  /** `replace(/^#/, '')`: one leading `#` is removed. */
  function StripHash(h: string): string {
    if |h| > 0 && h[0] == '#' then h[1..] else h
  }

  /** What `urlParseHashParams` returns. */
  function HashParams(decode: Decoder, locationHash: string): Params {
    var s := StripHash(locationHash);
    if |s| == 0 then map[]
    else if IndexOf(s, "=") < 0 && IndexOf(s, "?") < 0 then map["_path" := Some(SafeDecode(decode, s))]
    else PathEntry(decode, s) + QueryParams(decode, QueryPart(s))
  }

  /** The `_path` entry taken from the text before the first `?`, if any. */
  function PathEntry(decode: Decoder, s: string): Params {
    var q := IndexOf(s, "?");
    if q >= 0 then map["_path" := Some(SafeDecode(decode, s[..q]))] else map[]
  }

  /** The text after the first `?`, or all of it without one. */
  function QueryPart(s: string): string {
    var q := IndexOf(s, "?");
    if q >= 0 then s[q + 1..] else s
  }

  /** Lines 11-30: the hash is reassigned twice and the query parameters are
      copied over the `_path` entry one key at a time. */
  method UrlParseHashParams(decode: Decoder, locationHash: string) returns (params: Params)
    ensures params == HashParams(decode, locationHash)
  {
    var hash := StripHash(locationHash);
    if |hash| == 0 {
      return map[];
    }
    if IndexOf(hash, "=") < 0 && IndexOf(hash, "?") < 0 {
      return map["_path" := Some(SafeDecode(decode, hash))];
    }
    ghost var whole := hash;
    HashParamsWithQuery(decode, locationHash);
    params := map[];
    var qIndex := IndexOf(hash, "?");
    if qIndex >= 0 {
      params := map["_path" := Some(SafeDecode(decode, hash[..qIndex]))];
      hash := hash[qIndex + 1..];
    }
    assert params == PathEntry(decode, whole) && hash == QueryPart(whole);
    var queryParams := UrlParseQueryString(decode, hash);
    params := CopyParams(params, queryParams);
  }

  /** The third case of `HashParams`. */
  lemma HashParamsWithQuery(decode: Decoder, h: string)
    requires |StripHash(h)| > 0 && !(IndexOf(StripHash(h), "=") < 0 && IndexOf(StripHash(h), "?") < 0)
    ensures HashParams(decode, h) == PathEntry(decode, StripHash(h)) + QueryParams(decode, QueryPart(StripHash(h)))
  {
  }

  /** The `for (var key in query_params)` loop of lines 27-29: every query
      entry is stored, over an entry of the same name already there. */
  method CopyParams(target: Params, source: Params) returns (params: Params)
    ensures params == target + source
  {
    params := target;
    var keys := source.Keys;
    ghost var copied: set<string> := {};
    while keys != {}
      invariant keys == source.Keys - copied && copied <= source.Keys
      invariant params == target + Restrict(source, copied)
      decreases |keys|
    {
      var k :| k in keys;
      CopyOne(target, source, copied, k);
      params := params[k := source[k]];
      keys := keys - {k};
      copied := copied + {k};
    }
    assert Restrict(source, copied) == source;
  }

  /** The entries of `m` whose key is in `ks`. */
  function Restrict(m: Params, ks: set<string>): Params
  {
    map k | k in m.Keys * ks :: m[k]
  }

  /** Storing one more entry of `source` extends the copied part by it. */
  lemma CopyOne(target: Params, source: Params, copied: set<string>, k: string)
    requires k in source
    ensures (target + Restrict(source, copied))[k := source[k]] == target + Restrict(source, copied + {k})
  {
  }

  /** Only one `#` is removed. */
  lemma StripOneHash(s: string)
    ensures StripHash("#" + s) == s
    ensures |s| == 0 || s[0] != '#' ==> StripHash(s) == s
  {
    assert ("#" + s)[1..] == s;
  }

  /** An empty hash, with or without its `#`, gives no parameters. */
  lemma HashEmpty(decode: Decoder, h: string)
    requires h == "" || h == "#"
    ensures HashParams(decode, h) == map[]
  {
  }

  /** A hash with neither `=` nor `?` is only a path. */
  lemma HashPathOnly(decode: Decoder, h: string)
    requires |StripHash(h)| > 0 && '=' !in StripHash(h) && '?' !in StripHash(h)
    ensures HashParams(decode, h) == map["_path" := Some(SafeDecode(decode, StripHash(h)))]
  {
    IndexOfCharIff(StripHash(h), '=');
    IndexOfCharIff(StripHash(h), '?');
    assert "=" == ['='] && "?" == ['?'];
  }

  /** With `=` but no `?` the whole hash is a query string: `_path` is there
      only if the query names it. */
  lemma HashQueryOnly(decode: Decoder, h: string)
    requires '=' in StripHash(h) && '?' !in StripHash(h)
    ensures HashParams(decode, h) == QueryParams(decode, StripHash(h))
  {
    IndexOfCharIff(StripHash(h), '=');
    IndexOfCharIff(StripHash(h), '?');
    assert "=" == ['='] && "?" == ['?'];
  }

  /** With a `?`, `_path` is the decoded text before the first `?`, the text
      after it is a query string, and a query key `_path` wins. */
  lemma HashWithQuery(decode: Decoder, h: string)
    requires '?' in StripHash(h)
    ensures var s := StripHash(h); var q := IndexOf(s, "?");
      && 0 <= q < |s| && '?' !in s[..q]
      && var query := QueryParams(decode, s[q + 1..]); var r := HashParams(decode, h);
      && "_path" in r
      && r["_path"] == (if "_path" in query then query["_path"] else Some(SafeDecode(decode, s[..q])))
      && (forall k :: k in query ==> k in r && r[k] == query[k])
      && (forall k :: k in r ==> k == "_path" || k in query)
  {
    IndexOfCharIff(StripHash(h), '?');
    assert "?" == ['?'];
  }
}
