// `ActionsURLMapper` (src/lib/richTextProcessor/solanaBlink.ts:261-333):
// rewriting a page URL into the URL of its action API through the ordered
// `(pathPattern, apiPath)` rules of a site's `actions.json`.
//
// The source builds a regular expression from `pathPattern`: every `**`
// becomes `(.*)` and every slash-star left over becomes `/([^/]+)`. Every
// other character of the pattern is put into the expression unescaped, so
// `.`, `?`, `+`, a lone `*` and the like keep their regular-expression
// meaning there. This model reads every such character literally, which
// agrees with the source for patterns made of path characters, `**` and
// slash-star only.
module UrlMapper {
  import opened Wrappers
  import opened JsStrings

  /** The parts of a parsed `URL` object the mapper reads; `href` is what
      `toString()` returns. */
  datatype Url = Url(origin: string, pathname: string, search: string, href: string)

  /** One entry of `ActionsJson.rules`. */
  datatype Rule = Rule(pathPattern: string, apiPath: string)

  datatype ActionsJson = ActionsJson(rules: seq<Rule>)

  /** The throw the mapper can make in this model: `new URL(mappedPath)` at
      line 327 rejects the rewritten API path. (The `SyntaxError` that
      `new RegExp` at line 304 raises for a pattern that is not a valid
      expression is not part of this model.) */
  datatype MapError = InvalidUrl(input: string)

  /** The `URL` constructor, taken as a partial function. */
  type UrlParser = string -> Option<Url>

  // ---------------------------------------------------------------------
  // The matching expression of lines 304-306
  // ---------------------------------------------------------------------

  // One element of the expression built from a pattern: a literal
  // character, `(.*)` (from `**`) or `([^/]+)` (from the star of a
  // slash-star).
  datatype Tok = Lit(c: char) | AnyCap | SegCap

  // The two `replace` calls of line 305, done left to right: `**` pairs are
  // taken first, and a slash-star whose star does not start a `**` pair
  // becomes a slash followed by a segment capture.
  function Tokenize(p: string): seq<Tok> {
    TokenizeFrom(p, 0)
  }

  /** The expression made from `p[i..]`. */
  function TokenizeFrom(p: string, i: nat): seq<Tok>
    requires i <= |p|
    decreases |p| - i
  {
    if i == |p| then []
    else if i + 1 < |p| && p[i] == '*' && p[i + 1] == '*' then [AnyCap] + TokenizeFrom(p, i + 2)
    else if i + 1 < |p| && p[i] == '/' && p[i + 1] == '*' && !(i + 2 < |p| && p[i + 2] == '*') then
      [Lit('/'), SegCap] + TokenizeFrom(p, i + 2)
    else [Lit(p[i])] + TokenizeFrom(p, i + 1)
  }

  /** The pattern text each element of the expression comes from. */
  function Untokenize(ts: seq<Tok>): string
    decreases |ts|
  {
    if |ts| == 0 then ""
    else
      (match ts[0]
       case Lit(c) => [c]
       case AnyCap => "**"
       case SegCap => "*") + Untokenize(ts[1..])
  }

  lemma {:induction false} UntokenizeAppend(a: seq<Tok>, b: seq<Tok>)
    ensures Untokenize(a + b) == Untokenize(a) + Untokenize(b)
    decreases |a|
  {
    if |a| > 0 {
      assert (a + b)[0] == a[0] && (a + b)[1..] == a[1..] + b;
      UntokenizeAppend(a[1..], b);
    } else {
      assert a + b == b;
    }
  }

  /** Tokenizing loses nothing of the pattern, and a segment capture always
      follows a literal slash. */
  lemma TokenizeRoundTrip(p: string)
    ensures Untokenize(Tokenize(p)) == p
    ensures forall i :: 0 <= i < |Tokenize(p)| && Tokenize(p)[i] == SegCap ==>
      i > 0 && Tokenize(p)[i - 1] == Lit('/')
  {
    TokenizeFromText(p, 0);
    TokenizeFromSlash(p, 0);
  }

  lemma {:induction false} TokenizeFromText(p: string, i: nat)
    requires i <= |p|
    ensures Untokenize(TokenizeFrom(p, i)) == p[i..]
    decreases |p| - i
  {
    if i < |p| {
      var n, head := TokenizeFromHead(p, i);
      TokenizeFromText(p, i + n);
      UntokenizeAppend(head, TokenizeFrom(p, i + n));
      assert p[i..] == p[i..i + n] + p[i + n..];
    }
  }

  /** The first element of the expression made from `p[i..]` and the one or
      two characters it comes from. */
  lemma TokenizeFromHead(p: string, i: nat) returns (n: nat, head: seq<Tok>)
    requires i < |p|
    ensures 1 <= n <= 2 && i + n <= |p|
    ensures TokenizeFrom(p, i) == head + TokenizeFrom(p, i + n)
    ensures Untokenize(head) == p[i..i + n]
  {
    if i + 1 < |p| && p[i] == '*' && p[i + 1] == '*' {
      n, head := 2, [AnyCap];
      assert p[i..i + n] == [p[i], p[i + 1]];
    } else if i + 1 < |p| && p[i] == '/' && p[i + 1] == '*' && !(i + 2 < |p| && p[i + 2] == '*') {
      n, head := 2, [Lit('/'), SegCap];
      assert p[i..i + n] == [p[i], p[i + 1]];
    } else {
      n, head := 1, [Lit(p[i])];
      assert p[i..i + n] == [p[i]];
    }
  }

  lemma {:induction false} TokenizeFromSlash(p: string, i: nat)
    requires i <= |p|
    ensures forall j :: 0 <= j < |TokenizeFrom(p, i)| && TokenizeFrom(p, i)[j] == SegCap ==>
      j > 0 && TokenizeFrom(p, i)[j - 1] == Lit('/')
    decreases |p| - i
  {
    if i < |p| {
      var ts := TokenizeFrom(p, i);
      if i + 1 < |p| && p[i] == '*' && p[i + 1] == '*' {
        TokenizeFromSlash(p, i + 2);
        assert ts == [AnyCap] + TokenizeFrom(p, i + 2);
      } else if i + 1 < |p| && p[i] == '/' && p[i + 1] == '*' && !(i + 2 < |p| && p[i + 2] == '*') {
        TokenizeFromSlash(p, i + 2);
        assert ts == [Lit('/'), SegCap] + TokenizeFrom(p, i + 2);
      } else {
        TokenizeFromSlash(p, i + 1);
        assert ts == [Lit(p[i])] + TokenizeFrom(p, i + 1);
      }
    }
  }

  /** The characters `.` does not match without the `s` flag. */
  predicate LineTerminator(c: char) {
    c == '\n' || c == '\r' || c == '\U{2028}' || c == '\U{2029}'
  }

  /** The texts a capture group can take: `(.*)` any text without a line
      terminator, `([^/]+)` a non-empty text without `/`. */
  predicate CanCapture(t: Tok, s: string) {
    match t
    case Lit(_) => false
    case AnyCap => forall i :: 0 <= i < |s| ==> !LineTerminator(s[i])
    case SegCap => |s| >= 1 && '/' !in s
  }

  /** `s.match(/^…$/)` by backtracking: each capture tries its longest
      candidate first, as greedy quantifiers do, and the groups
      (`match.slice(1)`) are returned on success. */
  function MatchToks(ts: seq<Tok>, s: string): Option<seq<string>>
    decreases |ts|, 0, 0
  {
    if |ts| == 0 then (if |s| == 0 then Some([]) else None)
    else
      match ts[0]
      case Lit(c) => if |s| > 0 && s[0] == c then MatchToks(ts[1..], s[1..]) else None
      case _ => TryCapture(ts[0], ts[1..], s, |s|)
  }

  /** Capture group `t` tries `s[..k]`, then shorter prefixes. */
  function TryCapture(t: Tok, rest: seq<Tok>, s: string, k: nat): Option<seq<string>>
    requires k <= |s|
    decreases |rest|, 1, k
  {
    var r := if CanCapture(t, s[..k]) then MatchToks(rest, s[k..]) else None;
    if r.Some? then Some([s[..k]] + r.value)
    else if k == 0 then None
    else TryCapture(t, rest, s, k - 1)
  }

  // A declarative reading of "the expression matches `s` with groups `caps`".

  function CaptureCount(ts: seq<Tok>): nat
    decreases |ts|
  {
    if |ts| == 0 then 0 else (if ts[0].Lit? then 0 else 1) + CaptureCount(ts[1..])
  }

  /** The text spelled by the expression when group `i` holds `caps[i]`. */
  function Fill(ts: seq<Tok>, caps: seq<string>): string
    requires |caps| == CaptureCount(ts)
    decreases |ts|
  {
    if |ts| == 0 then ""
    else if ts[0].Lit? then [ts[0].c] + Fill(ts[1..], caps)
    else caps[0] + Fill(ts[1..], caps[1..])
  }

  /** Every group holds a text it can capture. */
  predicate Fits(ts: seq<Tok>, caps: seq<string>)
    requires |caps| == CaptureCount(ts)
    decreases |ts|
  {
    if |ts| == 0 then true
    else if ts[0].Lit? then Fits(ts[1..], caps)
    else CanCapture(ts[0], caps[0]) && Fits(ts[1..], caps[1..])
  }

  predicate Matches(ts: seq<Tok>, s: string, caps: seq<string>) {
    |caps| == CaptureCount(ts) && Fits(ts, caps) && Fill(ts, caps) == s
  }

  /** What a successful capture attempt returns. */
  lemma {:induction false} TryCaptureShape(t: Tok, rest: seq<Tok>, s: string, k: nat)
    requires k <= |s|
    requires TryCapture(t, rest, s, k).Some?
    ensures var c := TryCapture(t, rest, s, k).value;
      |c| >= 1 && |c[0]| <= k && c[0] == s[..|c[0]|] && CanCapture(t, c[0])
      && MatchToks(rest, s[|c[0]|..]) == Some(c[1..])
    decreases k
  {
    var r := if CanCapture(t, s[..k]) then MatchToks(rest, s[k..]) else None;
    if r.None? {
      TryCaptureShape(t, rest, s, k - 1);
    }
  }

  /** A capture attempt finds every candidate length `m <= k` that lets the
      rest match, and keeps the longest. */
  lemma {:induction false} TryCaptureFinds(t: Tok, rest: seq<Tok>, s: string, k: nat, m: nat)
    requires m <= k <= |s|
    requires CanCapture(t, s[..m]) && MatchToks(rest, s[m..]).Some?
    ensures TryCapture(t, rest, s, k).Some? && |TryCapture(t, rest, s, k).value| >= 1
    ensures |TryCapture(t, rest, s, k).value[0]| >= m
    decreases k
  {
    if !(CanCapture(t, s[..k]) && MatchToks(rest, s[k..]).Some?) {
      TryCaptureFinds(t, rest, s, k - 1, m);
    }
  }

  /** The groups the matcher returns form a match. */
  lemma {:induction false} MatchSound(ts: seq<Tok>, s: string)
    requires MatchToks(ts, s).Some?
    ensures Matches(ts, s, MatchToks(ts, s).value)
    decreases |ts|
  {
    var caps := MatchToks(ts, s).value;
    if |ts| > 0 {
      if ts[0].Lit? {
        MatchSound(ts[1..], s[1..]);
        assert [s[0]] + s[1..] == s;
      } else {
        TryCaptureShape(ts[0], ts[1..], s, |s|);
        var m := |caps[0]|;
        MatchSound(ts[1..], s[m..]);
        assert s[..m] + s[m..] == s;
      }
    }
  }

  /** Whenever some choice of groups matches, the matcher succeeds. */
  lemma {:induction false} MatchComplete(ts: seq<Tok>, s: string, caps: seq<string>)
    requires Matches(ts, s, caps)
    ensures MatchToks(ts, s).Some?
    decreases |ts|
  {
    if |ts| > 0 {
      if ts[0].Lit? {
        MatchComplete(ts[1..], s[1..], caps);
      } else {
        var m := |caps[0]|;
        assert s[..m] == caps[0] && s[m..] == Fill(ts[1..], caps[1..]);
        MatchComplete(ts[1..], s[m..], caps[1..]);
        TryCaptureFinds(ts[0], ts[1..], s, |s|, m);
      }
    }
  }

  /** The expression matches exactly when some choice of groups spells `s`. */
  lemma MatchIff(ts: seq<Tok>, s: string)
    ensures MatchToks(ts, s).Some? <==> exists caps :: Matches(ts, s, caps)
  {
    if MatchToks(ts, s).Some? {
      MatchSound(ts, s);
    }
    if exists caps :: Matches(ts, s, caps) {
      var caps :| Matches(ts, s, caps);
      MatchComplete(ts, s, caps);
    }
  }

  /** Greediness: against any other match, the groups returned agree up to
      some group and there hold a strictly longer text. */
  lemma {:induction false} MatchGreedy(ts: seq<Tok>, s: string, other: seq<string>)
    requires MatchToks(ts, s).Some? && Matches(ts, s, other)
    requires other != MatchToks(ts, s).value
    ensures var caps := MatchToks(ts, s).value;
      exists i :: 0 <= i < |caps| && i < |other| && caps[..i] == other[..i] && |other[i]| < |caps[i]|
    decreases |ts|
  {
    var caps := MatchToks(ts, s).value;
    MatchSound(ts, s);
    if ts[0].Lit? {
      MatchGreedy(ts[1..], s[1..], other);
    } else {
      var k := |caps[0]|;
      var m := |other[0]|;
      assert s[..m] == other[0] && s[m..] == Fill(ts[1..], other[1..]);
      MatchComplete(ts[1..], s[m..], other[1..]);
      TryCaptureFinds(ts[0], ts[1..], s, |s|, m);
      TryCaptureShape(ts[0], ts[1..], s, |s|);
      if k > m {
        assert caps[..0] == other[..0];
      } else {
        assert caps[0] == other[0];
        assert caps == [caps[0]] + caps[1..] && other == [other[0]] + other[1..];
        MatchGreedy(ts[1..], s[k..], other[1..]);
        var i :| 0 <= i < |caps[1..]| && i < |other[1..]| && caps[1..][..i] == other[1..][..i]
          && |other[1..][i]| < |caps[1..][i]|;
        assert caps[..i + 1] == [caps[0]] + caps[1..][..i];
        assert other[..i + 1] == [other[0]] + other[1..][..i];
      }
    }
  }

  // ---------------------------------------------------------------------
  // isExactMatch and matchPattern (lines 297-312)
  // ---------------------------------------------------------------------

  predicate IsExactMatch(pattern: string, url: Url) {
    pattern == url.origin + url.pathname
  }

  /** The text a pattern is matched against: the whole URL for a pattern
      starting with `http`, else the path. */
  function MatchTarget(pattern: string, url: Url): string {
    if StartsWith(pattern, "http") then url.href else url.pathname
  }

  /** The groups `caps` spell the target of `pattern` in `url`. */
  predicate PatternMatches(pattern: string, url: Url, caps: seq<string>) {
    Matches(Tokenize(pattern), MatchTarget(pattern, url), caps)
  }

  /** `matchPattern`: the groups of a match of the pattern's expression
      against the target, or `null` exactly when no choice of groups spells
      the target. */
  function MatchPattern(pattern: string, url: Url): (r: Option<seq<string>>)
    ensures r.Some? ==> PatternMatches(pattern, url, r.value)
    ensures r.None? ==> forall caps :: !PatternMatches(pattern, url, caps)
  {
    var ts, s := Tokenize(pattern), MatchTarget(pattern, url);
    MatchIff(ts, s);
    if MatchToks(ts, s).Some? then MatchSound(ts, s); MatchToks(ts, s) else None
  }

  // ---------------------------------------------------------------------
  // constructMappedUrl (lines 314-332)
  // ---------------------------------------------------------------------

  /** The text left after the leading run of `*`. */
  function SkipStars(s: string): (r: string)
    ensures |r| <= |s| && r == s[|s| - |r|..]
    ensures |r| == 0 || r[0] != '*'
    ensures forall i :: 0 <= i < |s| - |r| ==> s[i] == '*'
    decreases |s|
  {
    if |s| > 0 && s[0] == '*' then SkipStars(s[1..]) else s
  }

  /** Where the regular expression `\*+` first matches: the first `*` at or
      after `i`, or -1. */
  function FirstStarFrom(s: string, i: nat): (k: int)
    requires i <= |s|
    ensures k == -1 || (i <= k < |s| && s[k] == '*')
    ensures forall j :: i <= j < |s| && (k == -1 || j < k) ==> s[j] != '*'
    decreases |s| - i
  {
    if i == |s| then -1 else if s[i] == '*' then i else FirstStarFrom(s, i + 1)
  }

  /** `path.replace(/\*+/, group)`: the first run of `*` becomes the
      expansion of `group`; without a `*` the path is unchanged. */
  function ReplaceFirstStarRun(path: string, group: string): string {
    var k := FirstStarFrom(path, 0);
    if k < 0 then path
    else
      var tail := SkipStars(path[k..]);
      var e := |path| - |tail|;
      path[..k] + Expand(group, path[k..e], path[..k], tail) + tail
  }

  /** The number of maximal runs of `*`. */
  function StarRuns(s: string): nat
    decreases |s|
  {
    if |s| == 0 then 0
    else if s[0] == '*' then 1 + StarRuns(SkipStars(s))
    else StarRuns(s[1..])
  }

  lemma {:induction false} StarRunsStarFree(a: string, b: string)
    requires '*' !in a
    ensures StarRuns(a + b) == StarRuns(b)
    decreases |a|
  {
    if |a| > 0 {
      assert (a + b)[0] == a[0] && (a + b)[1..] == a[1..] + b;
      StarRunsStarFree(a[1..], b);
    } else {
      assert a + b == b;
    }
  }

  lemma {:induction false} StarRunsZero(s: string)
    ensures StarRuns(s) == 0 <==> '*' !in s
    decreases |s|
  {
    if |s| > 0 {
      if s[0] != '*' {
        StarRunsZero(s[1..]);
        assert s == [s[0]] + s[1..];
      }
    }
  }

  /** Replacing the first run by a group without `*` or `$` removes that run
      and leaves the later runs; without a run nothing changes. */
  lemma ReplaceFirstStarRunSpec(path: string, group: string)
    requires '*' !in group && '$' !in group
    ensures '*' !in path ==> ReplaceFirstStarRun(path, group) == path
    ensures '*' in path ==> StarRuns(ReplaceFirstStarRun(path, group)) == StarRuns(path) - 1
  {
    var k := FirstStarFrom(path, 0);
    if k >= 0 {
      var head, rest := path[..k], path[k..];
      assert '*' !in head && |rest| > 0 && rest[0] == '*' && head + rest == path by {
        assert forall j :: 0 <= j < k ==> head[j] == path[j];
      }
      ReplaceFirstStarRunLiteral(path, group);
      StarRunsAround(head, group, rest);
    } else {
      assert '*' !in path;
    }
  }

  /** A group without `$` is put in place of the first run as it is. */
  lemma ReplaceFirstStarRunLiteral(path: string, group: string)
    requires '$' !in group
    ensures var k := FirstStarFrom(path, 0);
      k >= 0 ==> ReplaceFirstStarRun(path, group) == path[..k] + group + SkipStars(path[k..])
  {
    var k := FirstStarFrom(path, 0);
    if k >= 0 {
      var tail := SkipStars(path[k..]);
      var e := |path| - |tail|;
      assert ReplaceFirstStarRun(path, group) == path[..k] + Expand(group, path[k..e], path[..k], tail) + tail;
      ExpandLiteral(group, path[k..e], path[..k], tail);
    }
  }

  /** Putting a star-free text in place of a leading run of `*` after a
      star-free text removes one run. */
  lemma StarRunsAround(head: string, group: string, rest: string)
    requires '*' !in head && '*' !in group && |rest| > 0 && rest[0] == '*'
    ensures StarRuns(head + group + SkipStars(rest)) + 1 == StarRuns(head + rest)
  {
    assert '*' !in head + group;
    StarRunsStarFree(head + group, SkipStars(rest));
    StarRunsStarFree(head, rest);
  }

  /** The first run of `*` after a star-free text is replaced, the rest kept. */
  lemma ReplaceFirstStarRunAt(u: string, v: string, g: string)
    requires '*' !in u && '$' !in g
    requires |v| == 0 || v[0] != '*'
    ensures ReplaceFirstStarRun(u + "*" + v, g) == u + g + v
  {
    var path := u + "*" + v;
    var k := FirstStarFrom(path, 0);
    assert path[|u|] == '*';
    assert forall j :: 0 <= j < |u| ==> path[j] == u[j];
    assert k == |u|;
    assert path[k..] == "*" + v;
    assert SkipStars("*" + v) == v by {
      assert ("*" + v)[1..] == v;
    }
    ExpandLiteral(g, "*", u, v);
    assert path[..k] == u;
  }

  /** `mappedPath` after the `forEach` of lines 322-324 has gone through
      `groups`. */
  function MappedPath(apiPath: string, groups: seq<string>): string
    decreases |groups|
  {
    if |groups| == 0 then apiPath
    else ReplaceFirstStarRun(MappedPath(apiPath, groups[..|groups| - 1]), groups[|groups| - 1])
  }

  /** With groups free of `*` and `$`, each group uses up one run: runs left
      over stay, and surplus groups are dropped. */
  lemma {:induction false} MappedPathRuns(apiPath: string, groups: seq<string>)
    requires forall i :: 0 <= i < |groups| ==> '*' !in groups[i] && '$' !in groups[i]
    ensures StarRuns(MappedPath(apiPath, groups)) ==
      if StarRuns(apiPath) >= |groups| then StarRuns(apiPath) - |groups| else 0
    decreases |groups|
  {
    if |groups| > 0 {
      var prev := MappedPath(apiPath, groups[..|groups| - 1]);
      MappedPathRuns(apiPath, groups[..|groups| - 1]);
      ReplaceFirstStarRunSpec(prev, groups[|groups| - 1]);
      StarRunsZero(prev);
      StarRunsZero(MappedPath(apiPath, groups));
    }
  }

  /** The URL `constructMappedUrl` returns. */
  function ConstructedUrl(parseUrl: UrlParser, apiPath: string, groups: seq<string>,
                          queryParams: string, origin: string): Result<string, MapError>
  {
    var mapped := MappedPath(apiPath, groups);
    if StartsWith(apiPath, "http") then
      match parseUrl(mapped)
      case None => Err(InvalidUrl(mapped))
      case Some(u) => Ok(u.origin + u.pathname + queryParams)
    else Ok(origin + mapped + queryParams)
  }

  /** Only an absolute API path whose rewritten form the `URL` constructor
      rejects throws; a relative one is put after the page's origin; the
      page's query string ends every result. */
  lemma ConstructedUrlShape(parseUrl: UrlParser, apiPath: string, groups: seq<string>,
                            queryParams: string, origin: string)
    ensures var r := ConstructedUrl(parseUrl, apiPath, groups, queryParams, origin);
      r.Err? <==> StartsWith(apiPath, "http") && parseUrl(MappedPath(apiPath, groups)).None?
    ensures var r := ConstructedUrl(parseUrl, apiPath, groups, queryParams, origin);
      r.Ok? ==> |queryParams| <= |r.value| && r.value[|r.value| - |queryParams|..] == queryParams
    ensures var r := ConstructedUrl(parseUrl, apiPath, groups, queryParams, origin);
      !StartsWith(apiPath, "http") ==> r.Ok? && StartsWith(r.value, origin + MappedPath(apiPath, groups))
  {
    var mapped := MappedPath(apiPath, groups);
    var r := ConstructedUrl(parseUrl, apiPath, groups, queryParams, origin);
    if r.Ok? {
      var head := if StartsWith(apiPath, "http") then parseUrl(mapped).value.origin + parseUrl(mapped).value.pathname
                  else origin + mapped;
      assert r.value == head + queryParams;
    }
  }

  // ---------------------------------------------------------------------
  // mapUrl (lines 268-295)
  // ---------------------------------------------------------------------

  predicate RuleApplies(rule: Rule, url: Url) {
    IsExactMatch(rule.pathPattern, url) || MatchPattern(rule.pathPattern, url).Some?
  }

  /** What `mapUrl` returns once `rule` applies. */
  function ApplyRule(parseUrl: UrlParser, rule: Rule, url: Url): Result<Option<string>, MapError>
    requires RuleApplies(rule, url)
  {
    if IsExactMatch(rule.pathPattern, url) then Ok(Some(rule.apiPath + url.search))
    else
      match ConstructedUrl(parseUrl, rule.apiPath, MatchPattern(rule.pathPattern, url).value,
                           url.search, url.origin)
      case Ok(s) => Ok(Some(s))
      case Err(e) => Err(e)
  }

  /** The loop of lines 273-291 over `rules`; `Ok(None)` is the `null` of
      line 294. */
  function MapRules(parseUrl: UrlParser, rules: seq<Rule>, url: Url): Result<Option<string>, MapError>
    decreases |rules|
  {
    if |rules| == 0 then Ok(None)
    else if RuleApplies(rules[0], url) then ApplyRule(parseUrl, rules[0], url)
    else MapRules(parseUrl, rules[1..], url)
  }

  /** Rules are tried in order and the first that applies decides. */
  lemma {:induction false} FirstRuleWins(parseUrl: UrlParser, rules: seq<Rule>, url: Url, i: nat)
    requires i < |rules| && RuleApplies(rules[i], url)
    requires forall j :: 0 <= j < i ==> !RuleApplies(rules[j], url)
    ensures MapRules(parseUrl, rules, url) == ApplyRule(parseUrl, rules[i], url)
    decreases i
  {
    if i > 0 {
      assert !RuleApplies(rules[0], url);
      FirstRuleWins(parseUrl, rules[1..], url, i - 1);
    }
  }

  /** The result is `null` exactly when no rule applies. */
  lemma {:induction false} NoRuleNull(parseUrl: UrlParser, rules: seq<Rule>, url: Url)
    ensures MapRules(parseUrl, rules, url) == Ok(None) <==>
      forall j :: 0 <= j < |rules| ==> !RuleApplies(rules[j], url)
    decreases |rules|
  {
    if |rules| > 0 {
      NoRuleNull(parseUrl, rules[1..], url);
      if !RuleApplies(rules[0], url) {
        assert forall j :: 1 <= j < |rules| ==> rules[j] == rules[1..][j - 1];
      }
    }
  }

  /** An exact match returns the API path and the query string as they are,
      without the origin in front. */
  lemma ExactMatchVerbatim(parseUrl: UrlParser, rule: Rule, url: Url)
    requires IsExactMatch(rule.pathPattern, url)
    ensures RuleApplies(rule, url)
    ensures ApplyRule(parseUrl, rule, url) == Ok(Some(rule.apiPath + url.search))
  {
  }

  /** Lengths at which the group cannot capture are passed over. */
  lemma {:induction false} TryCaptureSkip(t: Tok, rest: seq<Tok>, s: string, k: nat, m: nat)
    requires m <= k <= |s|
    requires forall j :: m < j <= k ==> !CanCapture(t, s[..j])
    ensures TryCapture(t, rest, s, k) == TryCapture(t, rest, s, m)
    decreases k
  {
    if k > m {
      TryCaptureSkip(t, rest, s, k - 1, m);
    }
  }

  /** The expression that matches exactly the text `p`. */
  function Lits(p: string): seq<Tok>
    decreases |p|
  {
    if |p| == 0 then [] else [Lit(p[0])] + Lits(p[1..])
  }

  /** A literal prefix common to expression and text is matched away. */
  lemma {:induction false} MatchLitsPrefix(p: string, ts: seq<Tok>, s: string)
    ensures MatchToks(Lits(p) + ts, p + s) == MatchToks(ts, s)
    decreases |p|
  {
    if |p| > 0 {
      MatchLitsPrefix(p[1..], ts, s);
      assert (Lits(p) + ts)[0] == Lit(p[0]) && (Lits(p) + ts)[1..] == Lits(p[1..]) + ts;
      assert (p + s)[0] == p[0] && (p + s)[1..] == p[1..] + s;
    } else {
      assert Lits(p) + ts == ts && p + s == s;
    }
  }

  /** A segment capture between literal texts, the second starting with a
      slash, followed by an any-string capture. */
  lemma MatchSegThenAny(p1: string, p2: string, a: string, b: string)
    requires |a| >= 1 && '/' !in a && |p2| >= 1 && p2[0] == '/'
    requires forall i :: 0 <= i < |b| ==> !LineTerminator(b[i])
    ensures MatchToks(Lits(p1) + ([SegCap] + (Lits(p2) + [AnyCap])), p1 + (a + (p2 + b))) == Some([a, b])
  {
    var tail := Lits(p2) + [AnyCap];
    var x := a + (p2 + b);
    assert MatchToks(Lits(p1) + ([SegCap] + tail), p1 + x) == TryCapture(SegCap, tail, x, |x|) by {
      MatchLitsPrefix(p1, [SegCap] + tail, x);
      MatchCaptureFirst(SegCap, tail, x);
    }
    assert TryCapture(SegCap, tail, x, |x|) == TryCapture(SegCap, tail, x, |a|) by {
      SegmentEnds(tail, a, p2 + b);
    }
    assert TryCapture(SegCap, tail, x, |a|) == Some([a, b]) by {
      MatchAnyRest(p2, b);
      assert x[..|a|] == a && x[|a|..] == p2 + b;
      TryCaptureAt(SegCap, tail, x, |a|);
      assert [a] + [b] == [a, b];
    }
  }

  lemma MatchCaptureFirst(t: Tok, rest: seq<Tok>, s: string)
    requires !t.Lit?
    ensures MatchToks([t] + rest, s) == TryCapture(t, rest, s, |s|)
  {
    assert ([t] + rest)[0] == t && ([t] + rest)[1..] == rest;
  }

  /** A segment capture cannot reach past the next slash. */
  lemma SegmentEnds(rest: seq<Tok>, a: string, c: string)
    requires |c| >= 1 && c[0] == '/'
    ensures TryCapture(SegCap, rest, a + c, |a + c|) == TryCapture(SegCap, rest, a + c, |a|)
  {
    var x := a + c;
    assert forall j :: |a| < j <= |x| ==> x[..j][|a|] == '/';
    TryCaptureSkip(SegCap, rest, x, |x|, |a|);
  }

  lemma TryCaptureAt(t: Tok, rest: seq<Tok>, s: string, k: nat)
    requires k <= |s| && CanCapture(t, s[..k]) && MatchToks(rest, s[k..]).Some?
    ensures TryCapture(t, rest, s, k) == Some([s[..k]] + MatchToks(rest, s[k..]).value)
  {
  }

  /** An any-string capture takes a whole text without line terminators. */
  lemma MatchAnyAll(b: string)
    requires forall i :: 0 <= i < |b| ==> !LineTerminator(b[i])
    ensures MatchToks([AnyCap], b) == Some([b])
  {
    MatchCaptureFirst(AnyCap, [], b);
    assert [AnyCap] + [] == [AnyCap];
    assert b[..|b|] == b && b[|b|..] == "";
    assert CanCapture(AnyCap, b[..|b|]);
    assert MatchToks([], b[|b|..]) == Some([]);
    TryCaptureAt(AnyCap, [], b, |b|);
    assert [b[..|b|]] + [] == [b];
  }

  /** A literal text, then an any-string capture that takes the rest. */
  lemma MatchAnyRest(p: string, b: string)
    requires forall i :: 0 <= i < |b| ==> !LineTerminator(b[i])
    ensures MatchToks(Lits(p) + [AnyCap], p + b) == Some([b])
  {
    MatchLitsPrefix(p, [AnyCap], b);
    MatchAnyAll(b);
  }

  /** Two runs of `*` after star-free texts take two groups. */
  lemma MappedTwoRuns(u1: string, u2: string, a: string, b: string)
    requires '*' !in u1 && '*' !in u2 && '*' !in a && '$' !in a && '$' !in b
    requires |u2| >= 1
    ensures MappedPath(u1 + "*" + u2 + "*", [a, b]) == u1 + a + u2 + b
  {
    MappedPathTwo(u1 + "*" + u2 + "*", a, b);
    assert u1 + "*" + u2 + "*" == u1 + "*" + (u2 + "*");
    ReplaceFirstStarRunAt(u1, u2 + "*", a);
    assert u1 + a + (u2 + "*") == (u1 + a + u2) + "*" + "";
    ReplaceFirstStarRunAt(u1 + a + u2, "", b);
  }

  lemma MappedPathTwo(apiPath: string, a: string, b: string)
    ensures MappedPath(apiPath, [a, b]) == ReplaceFirstStarRun(ReplaceFirstStarRun(apiPath, a), b)
  {
    assert [a, b][..1] == [a] && [a][..0] == [];
    assert MappedPath(apiPath, [a]) == ReplaceFirstStarRun(apiPath, a);
  }

  /** Tokenizing does not look behind: text before position `|u|` does not
      change what the rest becomes. */
  lemma {:induction false} TokenizeShift(u: string, r: string, i: nat)
    requires i <= |r|
    ensures TokenizeFrom(u + r, |u| + i) == TokenizeFrom(r, i)
    decreases |r| - i
  {
    if i < |r| {
      var p, k := u + r, |u| + i;
      assert p[k] == r[i];
      if i + 1 < |r| {
        assert p[k + 1] == r[i + 1];
        if i + 2 < |r| {
          assert p[k + 2] == r[i + 2];
        }
        TokenizeShift(u, r, i + 2);
      }
      TokenizeShift(u, r, i + 1);
    }
  }

  /** A star-free text not followed by a star turns into literals. */
  lemma {:induction false} TokenizeLitsPrefix(u: string, r: string)
    requires '*' !in u && (|r| == 0 || r[0] != '*')
    ensures Tokenize(u + r) == Lits(u) + Tokenize(r)
    decreases |u|
  {
    if |u| > 0 {
      var c, t := u[0], u[1..] + r;
      var p := [c] + t;
      assert u + r == p;
      assert c != '*';
      assert |t| > 0 ==> t[0] != '*' by {
        if |u| > 1 { assert t[0] == u[1]; }
      }
      assert TokenizeFrom(p, 0) == [Lit(c)] + TokenizeFrom(p, 1) by {
        assert p[0] == c && (|p| > 1 ==> p[1] == t[0]);
      }
      TokenizeShift([c], t, 0);
      TokenizeLitsPrefix(u[1..], r);
      assert Lits(u) == [Lit(c)] + Lits(u[1..]);
    } else {
      assert u + r == r;
    }
  }

  /** A slash-star not followed by another star is a segment capture. */
  lemma TokenizeSegment(r: string)
    requires |r| == 0 || r[0] != '*'
    ensures Tokenize("/*" + r) == [Lit('/'), SegCap] + Tokenize(r)
  {
    var p := "/*" + r;
    assert p[0] == '/' && p[1] == '*' && (|p| > 2 ==> p[2] == r[0]);
    TokenizeShift("/*", r, 0);
  }

  /** A slash-star between star-free texts, then a slash and `**`: a
      segment capture after the first slash, an any-string capture after the
      second. */
  lemma TokenizeSegThenAny(u1: string, u2: string)
    requires '*' !in u1 && '*' !in u2
    ensures Tokenize(u1 + "/*" + u2 + "/**")
      == Lits(u1 + "/") + ([SegCap] + (Lits(u2 + "/") + [AnyCap]))
  {
    var tail := u2 + "/**";
    assert Tokenize(tail) == Lits(u2) + [Lit('/'), AnyCap] by {
      assert Tokenize("/**") == [Lit('/'), AnyCap];
      TokenizeLitsPrefix(u2, "/**");
    }
    assert Tokenize("/*" + tail) == [Lit('/'), SegCap] + Tokenize(tail) by {
      assert |tail| == 0 || tail[0] != '*' by {
        if |u2| > 0 { assert tail[0] == u2[0]; }
      }
      TokenizeSegment(tail);
    }
    assert Tokenize(u1 + ("/*" + tail)) == Lits(u1) + Tokenize("/*" + tail) by {
      TokenizeLitsPrefix(u1, "/*" + tail);
    }
    assert u1 + "/*" + u2 + "/**" == u1 + ("/*" + tail);
    LitsAppend(u1, "/");
    LitsAppend(u2, "/");
  }

  /** The expression of the wildcard pattern of `WildcardExample`. */
  lemma TokenizeExample(p: string)
    requires p == "/buy/*/item/**"
    ensures Tokenize(p) == Lits("/buy/") + ([SegCap] + (Lits("/item/") + [AnyCap]))
  {
    assert p == "/buy" + "/*" + "/item" + "/**";
    TokenizeSegThenAny("/buy", "/item");
    assert "/buy" + "/" == "/buy/" && "/item" + "/" == "/item/";
  }

  lemma {:induction false} LitsAppend(u: string, v: string)
    ensures Lits(u + v) == Lits(u) + Lits(v)
    decreases |u|
  {
    if |u| > 0 {
      LitsAppend(u[1..], v);
      assert (u + v)[0] == u[0] && (u + v)[1..] == u[1..] + v;
    } else {
      assert u + v == v;
    }
  }

  /** Matching a path such as `/buy/42/item/shoes/red`: the segment capture
      stops at the next slash and the any-string capture takes the rest. */
  lemma MatchExample(p: string, a: string, b: string)
    requires p == "/buy/*/item/**"
    requires |a| >= 1 && '/' !in a
    requires forall i :: 0 <= i < |b| ==> !LineTerminator(b[i])
    ensures MatchToks(Tokenize(p), "/buy/" + a + "/item/" + b) == Some([a, b])
  {
    TokenizeExample(p);
    assert "/buy/" + a + "/item/" + b == "/buy/" + (a + ("/item/" + b));
    MatchSegThenAny("/buy/", "/item/", a, b);
  }

  lemma MappedPathExample(apiPath: string, a: string, b: string)
    requires apiPath == "/api/*/full/*"
    requires '*' !in a && '$' !in a && '*' !in b && '$' !in b
    ensures MappedPath(apiPath, [a, b]) == "/api/" + a + "/full/" + b
  {
    assert apiPath == "/api/" + "*" + "/full/" + "*";
    MappedTwoRuns("/api/", "/full/", a, b);
  }

  /** A wildcard rule: a slash-star captures one segment, `**` the rest of
      the path, and the groups fill the runs of `*` of the API path in order,
      after the page's origin and before its query string. */
  lemma WildcardExample(parseUrl: UrlParser, pattern: string, apiPath: string,
                        origin: string, a: string, b: string, search: string, href: string)
    requires pattern == "/buy/*/item/**" && apiPath == "/api/*/full/*"
    requires |a| >= 1 && '/' !in a && '*' !in a && '$' !in a
    requires '*' !in b && '$' !in b && forall i :: 0 <= i < |b| ==> !LineTerminator(b[i])
    ensures var url := Url(origin, "/buy/" + a + "/item/" + b, search, href);
      MapRules(parseUrl, [Rule(pattern, apiPath)], url)
        == Ok(Some(origin + "/api/" + a + "/full/" + b + search))
  {
    var url := Url(origin, "/buy/" + a + "/item/" + b, search, href);
    var rule := Rule(pattern, apiPath);
    WildcardFacts(parseUrl, rule, url, a, b);
    SinglePatternRule(parseUrl, rule, url, [a, b], origin + "/api/" + a + "/full/" + b + search);
  }

  lemma WildcardFacts(parseUrl: UrlParser, rule: Rule, url: Url, a: string, b: string)
    requires rule.pathPattern == "/buy/*/item/**" && rule.apiPath == "/api/*/full/*"
    requires url.pathname == "/buy/" + a + "/item/" + b
    requires |a| >= 1 && '/' !in a && '*' !in a && '$' !in a
    requires '*' !in b && '$' !in b && forall i :: 0 <= i < |b| ==> !LineTerminator(b[i])
    ensures !IsExactMatch(rule.pathPattern, url)
    ensures MatchPattern(rule.pathPattern, url) == Some([a, b])
    ensures ConstructedUrl(parseUrl, rule.apiPath, [a, b], url.search, url.origin)
      == Ok(url.origin + "/api/" + a + "/full/" + b + url.search)
  {
    WildcardMatch(rule.pathPattern, url, a, b);
    WildcardNotExact(rule.pathPattern, url, a, b);
    WildcardConstructed(parseUrl, rule.apiPath, url, a, b);
  }

  lemma WildcardMatch(pattern: string, url: Url, a: string, b: string)
    requires pattern == "/buy/*/item/**" && url.pathname == "/buy/" + a + "/item/" + b
    requires |a| >= 1 && '/' !in a
    requires forall i :: 0 <= i < |b| ==> !LineTerminator(b[i])
    ensures MatchPattern(pattern, url) == Some([a, b])
  {
    assert !StartsWith(pattern, "http") by {
      assert pattern[0] != 'h';
    }
    MatchExample(pattern, a, b);
  }

  lemma WildcardNotExact(pattern: string, url: Url, a: string, b: string)
    requires pattern == "/buy/*/item/**" && url.pathname == "/buy/" + a + "/item/" + b
    requires '*' !in b
    ensures !IsExactMatch(pattern, url)
  {
    var whole := url.origin + url.pathname;
    assert |whole| >= 1 && pattern[|pattern| - 1] == '*';
    if |b| == 0 {
      assert whole[|whole| - 1] == '/';
    } else {
      assert whole[|whole| - 1] == b[|b| - 1];
    }
  }

  lemma WildcardConstructed(parseUrl: UrlParser, apiPath: string, url: Url, a: string, b: string)
    requires apiPath == "/api/*/full/*"
    requires '*' !in a && '$' !in a && '*' !in b && '$' !in b
    ensures ConstructedUrl(parseUrl, apiPath, [a, b], url.search, url.origin)
      == Ok(url.origin + "/api/" + a + "/full/" + b + url.search)
  {
    assert !StartsWith(apiPath, "http") by {
      assert apiPath[0] != 'h';
    }
    MappedPathExample(apiPath, a, b);
    assert url.origin + ("/api/" + a + "/full/" + b) + url.search == url.origin + "/api/" + a + "/full/" + b + url.search;
  }

  /** A single rule that is not an exact match but whose pattern matches
      yields the URL built from the groups. */
  lemma SinglePatternRule(parseUrl: UrlParser, rule: Rule, url: Url, groups: seq<string>, s: string)
    requires !IsExactMatch(rule.pathPattern, url)
    requires MatchPattern(rule.pathPattern, url) == Some(groups)
    requires ConstructedUrl(parseUrl, rule.apiPath, groups, url.search, url.origin) == Ok(s)
    ensures MapRules(parseUrl, [rule], url) == Ok(Some(s))
  {
    assert [rule][0] == rule;
  }

  /** An exact rule with an absolute API path. */
  lemma ExactExample(parseUrl: UrlParser)
    ensures var url := Url("https://site.com", "/pay", "?ref=9", "https://site.com/pay?ref=9");
      MapRules(parseUrl, [Rule("https://site.com/pay", "https://site.com/api/pay")], url)
        == Ok(Some("https://site.com/api/pay?ref=9"))
  {
    var url := Url("https://site.com", "/pay", "?ref=9", "https://site.com/pay?ref=9");
    var rule := Rule("https://site.com/pay", "https://site.com/api/pay");
    assert IsExactMatch(rule.pathPattern, url);
    assert RuleApplies(rule, url);
    assert ApplyRule(parseUrl, rule, url) == Ok(Some(rule.apiPath + url.search));
    assert rule.apiPath + url.search == "https://site.com/api/pay?ref=9";
    assert [rule][0] == rule;
    assert MapRules(parseUrl, [rule], url) == ApplyRule(parseUrl, rule, url);
  }

  /** `ActionsURLMapper` over the rules of an `actions.json`. */
  class ActionsUrlMapper {
    const config: ActionsJson

    constructor(config: ActionsJson)
      ensures this.config == config
    {
      this.config := config;
    }

    /** Lines 268-295. */
    method MapUrl(parseUrl: UrlParser, url: Url) returns (r: Result<Option<string>, MapError>)
      ensures r == MapRules(parseUrl, config.rules, url)
    {
      var rules := config.rules;
      var queryParams := url.search;
      var i := 0;
      while i < |rules|
        invariant 0 <= i <= |rules|
        invariant MapRules(parseUrl, rules, url) == MapRules(parseUrl, rules[i..], url)
      {
        var action := rules[i];
        assert rules[i..][0] == action && rules[i..][1..] == rules[i + 1..];
        if IsExactMatch(action.pathPattern, url) {
          return Ok(Some(action.apiPath + queryParams));
        }
        var m := MatchPattern(action.pathPattern, url);
        if m.Some? {
          var mapped := ConstructMappedUrl(parseUrl, action.apiPath, m.value, queryParams, url.origin);
          match mapped {
            case Ok(s) => return Ok(Some(s));
            case Err(e) => return Err(e);
          }
        }
        i := i + 1;
      }
      return Ok(None);
    }

    /** Lines 315-332. */
    method ConstructMappedUrl(parseUrl: UrlParser, apiPath: string, groups: seq<string>,
                              queryParams: string, origin: string) returns (r: Result<string, MapError>)
      ensures r == ConstructedUrl(parseUrl, apiPath, groups, queryParams, origin)
    {
      var mappedPath := apiPath;
      var i := 0;
      while i < |groups|
        invariant 0 <= i <= |groups|
        invariant mappedPath == MappedPath(apiPath, groups[..i])
      {
        assert groups[..i + 1][..i] == groups[..i];
        mappedPath := ReplaceFirstStarRun(mappedPath, groups[i]);
        i := i + 1;
      }
      assert groups[..|groups|] == groups;
      if StartsWith(apiPath, "http") {
        var mappedUrl := parseUrl(mappedPath);
        if mappedUrl.None? {
          return Err(InvalidUrl(mappedPath));
        }
        return Ok(mappedUrl.value.origin + mappedUrl.value.pathname + queryParams);
      }
      return Ok(origin + mappedPath + queryParams);
    }
  }
}
