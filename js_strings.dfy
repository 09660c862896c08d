/** The JavaScript string built-ins the core relies on, written out with the
    semantics ECMAScript gives them: `indexOf`, `includes`, `startsWith`,
    `split` on a one-character separator, `replaceAll` with a string pattern
    (including the `$$`, `$&`, `` $` `` and `$'` patterns of the replacement
    text), a global one-character `replace`, the decimal form of a number and
    the canonical array-index form of a property key. */
module JsStrings {
  import opened Wrappers

  /** `s.startsWith(prefix)`. */
  predicate StartsWith(s: string, prefix: string) {
    prefix <= s
  }

  /** `sub` occurs in `s` starting at index `k`. */
  predicate OccursAt(s: string, sub: string, k: int) {
    0 <= k && k + |sub| <= |s| && s[k..k + |sub|] == sub
  }

  /** `s.indexOf(sub, from)`: the first occurrence at or after `from`, or -1. */
  function IndexOfFrom(s: string, sub: string, from: nat): (r: int)
    ensures r == -1 || (from <= r && OccursAt(s, sub, r))
    ensures r == -1 ==> forall k :: from <= k ==> !OccursAt(s, sub, k)
    ensures r != -1 ==> forall k :: from <= k < r ==> !OccursAt(s, sub, k)
    decreases |s| - from
  {
    if from + |sub| > |s| then -1
    else if OccursAt(s, sub, from) then from
    else IndexOfFrom(s, sub, from + 1)
  }

  /** `s.indexOf(sub)`. */
  function IndexOf(s: string, sub: string): int {
    IndexOfFrom(s, sub, 0)
  }

  /** `s.includes(sub)`. */
  predicate Contains(s: string, sub: string) {
    IndexOf(s, sub) >= 0
  }

  lemma ContainsIff(s: string, sub: string)
    ensures Contains(s, sub) <==> exists k :: OccursAt(s, sub, k)
  {
    if !Contains(s, sub) {
      forall k ensures !OccursAt(s, sub, k) {
        if k >= 0 { assert 0 <= k; }
      }
    }
  }

  /** `s.indexOf(c)` for one character: not negative exactly when `c`
      occurs, and then it is the first position of `c`. */
  lemma IndexOfCharIff(s: string, c: char)
    ensures var k := IndexOf(s, [c]);
      (k >= 0 <==> c in s) && (k >= 0 ==> k < |s| && s[k] == c && c !in s[..k])
  {
    var k := IndexOf(s, [c]);
    assert k >= 0 ==> s[k..k + 1][0] == s[k];
    if c in s {
      var j :| 0 <= j < |s| && s[j] == c;
      assert OccursAt(s, [c], j);
    }
    if k >= 0 {
      forall j | 0 <= j < k ensures s[j] != c {
        assert !OccursAt(s, [c], j);
        assert s[j..j + 1] == [s[j]];
      }
    }
  }

  /** `s.split(c)` for a one-character separator: the text between the
      separators, in order; there is always at least one piece. */
  function Split(s: string, c: char): (parts: seq<string>)
    ensures |parts| >= 1
    decreases |s|
  {
    if |s| == 0 then [""]
    else
      var rest := Split(s[1..], c);
      if s[0] == c then [""] + rest else [[s[0]] + rest[0]] + rest[1..]
  }

  /** `parts.join(c)`. */
  function Join(parts: seq<string>, c: char): string
    requires |parts| >= 1
    decreases |parts|
  {
    if |parts| == 1 then parts[0] else parts[0] + [c] + Join(parts[1..], c)
  }

  /** Splitting loses nothing: the pieces contain no separator and joining
      them with it gives the original text back. */
  lemma {:induction false} SplitJoin(s: string, c: char)
    ensures Join(Split(s, c), c) == s
    ensures forall i :: 0 <= i < |Split(s, c)| ==> c !in Split(s, c)[i]
    decreases |s|
  {
    if |s| > 0 {
      var rest := Split(s[1..], c);
      SplitJoin(s[1..], c);
      if s[0] == c {
        assert [""] + rest == Split(s, c);
        assert ([""] + rest)[1..] == rest;
        assert s == [s[0]] + s[1..];
      } else {
        var parts := Split(s, c);
        assert parts[0] == [s[0]] + rest[0];
        assert parts[1..] == rest[1..];
        if |parts| == 1 {
          assert |rest| == 1;
          assert s == [s[0]] + s[1..];
        } else {
          assert Join(rest, c) == rest[0] + [c] + Join(rest[1..], c);
          assert s == [s[0]] + s[1..];
        }
        forall i | 0 <= i < |parts| ensures c !in parts[i] {
          if i > 0 { assert parts[i] == rest[i]; }
        }
      }
    }
  }

  /** A text without the separator is one piece. */
  lemma {:induction false} SplitWithoutSeparator(s: string, c: char)
    requires c !in s
    ensures Split(s, c) == [s]
    decreases |s|
  {
    if |s| > 0 {
      SplitWithoutSeparator(s[1..], c);
      assert [s[0]] + s[1..] == s;
    }
  }

  /** Text before the first separator is the first piece, and the rest is
      split on its own. */
  lemma {:induction false} SplitAfterSeparator(a: string, b: string, c: char)
    requires c !in a
    ensures Split(a + [c] + b, c) == [a] + Split(b, c)
    decreases |a|
  {
    if |a| == 0 {
      assert a + [c] + b == [c] + b;
      assert ([c] + b)[1..] == b;
    } else {
      SplitAfterSeparator(a[1..], b, c);
      assert (a + [c] + b)[1..] == a[1..] + [c] + b;
      assert [a[0]] + a[1..] == a;
    }
  }

  /** The first piece is the text before the first separator. */
  lemma {:induction false} SplitFirstPiece(s: string, c: char)
    requires c in s
    ensures |Split(s, c)| >= 2
    ensures var k := IndexOf(s, [c]); 0 <= k && Split(s, c)[0] == s[..k]
    decreases |s|
  {
    if s[0] == c {
      assert OccursAt(s, [c], 0);
    } else {
      SplitFirstPiece(s[1..], c);
      var k' := IndexOf(s[1..], [c]);
      var k := IndexOf(s, [c]);
      assert OccursAt(s, [c], k' + 1);
      assert !OccursAt(s, [c], 0);
      forall j | 0 <= j < k' + 1 ensures !OccursAt(s, [c], j) {
        if j > 0 {
          assert s[j..j + 1] == s[1..][j - 1..j];
          assert !OccursAt(s[1..], [c], j - 1);
        }
      }
      assert k == k' + 1;
      assert s[..k] == [s[0]] + s[1..][..k'];
    }
  }

  /** The text that `$`-patterns of a replacement string stand for:
      ECMAScript's GetSubstitution without capture groups. `$$` is one `$`,
      `$&` the matched text, `` $` `` the text before the match and `$'` the
      text after it; any other `$` is literal. */
  function Expand(repl: string, matched: string, before: string, after: string): string
    decreases |repl|
  {
    if |repl| == 0 then ""
    else if repl[0] == '$' && |repl| >= 2 && repl[1] in "$&`'" then
      Substitution(repl[1], matched, before, after) + Expand(repl[2..], matched, before, after)
    else [repl[0]] + Expand(repl[1..], matched, before, after)
  }

  /** What the two-character pattern `$c` stands for. */
  function Substitution(c: char, matched: string, before: string, after: string): string
    requires c in "$&`'"
  {
    if c == '$' then "$" else if c == '&' then matched else if c == '`' then before else after
  }

  /** A replacement text without `$` is inserted as it is. */
  lemma {:induction false} ExpandLiteral(repl: string, matched: string, before: string, after: string)
    requires '$' !in repl
    ensures Expand(repl, matched, before, after) == repl
    decreases |repl|
  {
    if |repl| > 0 {
      ExpandLiteral(repl[1..], matched, before, after);
      assert [repl[0]] + repl[1..] == repl;
    }
  }

  /** `s.replaceAll(pat, repl)` with a string pattern: every non-overlapping
      occurrence, found left to right, is replaced by the expansion of `repl`;
      an empty pattern matches at every position. */
  function ReplaceAll(s: string, pat: string, repl: string): string {
    ReplaceAllFrom(s, pat, repl, 0)
  }

  /** The part of `ReplaceAll(s, pat, repl)` produced from index `from` on. */
  function ReplaceAllFrom(s: string, pat: string, repl: string, from: nat): string
    requires from <= |s|
    decreases |s| - from
  {
    if pat == [] then
      Expand(repl, "", s[..from], s[from..]) +
      (if from < |s| then [s[from]] + ReplaceAllFrom(s, pat, repl, from + 1) else "")
    else
      var k := IndexOfFrom(s, pat, from);
      if k < 0 then s[from..]
      else s[from..k] + Expand(repl, pat, s[..k], s[k + |pat|..]) + ReplaceAllFrom(s, pat, repl, k + |pat|)
  }

  lemma ReplaceAllFromSelf(s: string, pat: string, from: nat)
    requires from <= |s|
    requires '$' !in pat
    ensures ReplaceAllFrom(s, pat, pat, from) == s[from..]
  {
    if pat == [] {
      ReplaceAllFromSelfEmpty(s, from);
    } else {
      ReplaceAllFromSelfOccurs(s, pat, from);
    }
  }

  /** The empty pattern, replaced by itself, inserts nothing between the
      characters. */
  lemma {:induction false} ReplaceAllFromSelfEmpty(s: string, from: nat)
    requires from <= |s|
    ensures ReplaceAllFrom(s, [], [], from) == s[from..]
    decreases |s| - from
  {
    assert Expand([], "", s[..from], s[from..]) == [];
    if from < |s| {
      ReplaceAllFromSelfEmpty(s, from + 1);
      assert [s[from]] + s[from + 1..] == s[from..];
    }
  }

  /** Each occurrence of a non-empty `$`-free pattern is put back as it was. */
  lemma {:induction false} ReplaceAllFromSelfOccurs(s: string, pat: string, from: nat)
    requires from <= |s|
    requires pat != [] && '$' !in pat
    ensures ReplaceAllFrom(s, pat, pat, from) == s[from..]
    decreases |s| - from
  {
    var k := IndexOfFrom(s, pat, from);
    if k >= 0 {
      var e := k + |pat|;
      assert from <= k && e <= |s|;
      calc {
        ReplaceAllFrom(s, pat, pat, from);
        == { ReplaceAllFromStep(s, pat, pat, from); }
        s[from..k] + Expand(pat, pat, s[..k], s[e..]) + ReplaceAllFrom(s, pat, pat, e);
        == { ExpandLiteral(pat, pat, s[..k], s[e..]); ReplaceAllFromSelfOccurs(s, pat, e); }
        s[from..k] + pat + s[e..];
        == { OccurrenceSplit(s, pat, from, k); }
        s[from..];
      }
    }
  }

  /** One step of `ReplaceAllFrom` at the next occurrence of a non-empty
      pattern. */
  lemma ReplaceAllFromStep(s: string, pat: string, repl: string, from: nat)
    requires from <= |s| && pat != []
    ensures var k := IndexOfFrom(s, pat, from);
      k >= 0 ==>
        ReplaceAllFrom(s, pat, repl, from)
          == s[from..k] + Expand(repl, pat, s[..k], s[k + |pat|..]) + ReplaceAllFrom(s, pat, repl, k + |pat|)
  {
    var k := IndexOfFrom(s, pat, from);
    assert k >= 0 ==> k + |pat| <= |s|;
  }

  /** The text from `from` on is the part before the occurrence at `k`, the
      pattern, and the part after it. */
  lemma OccurrenceSplit(s: string, pat: string, from: nat, k: int)
    requires from <= k && OccursAt(s, pat, k)
    ensures s[from..k] + pat + s[k + |pat|..] == s[from..]
  {
    assert s[from..k] + s[k..k + |pat|] + s[k + |pat|..] == s[from..];
  }

  /** Replacing a `$`-free text by itself changes nothing. */
  lemma ReplaceAllSelf(s: string, pat: string)
    requires '$' !in pat
    ensures ReplaceAll(s, pat, pat) == s
  {
    ReplaceAllFromSelf(s, pat, 0);
  }

  /** A text replaced as a whole by a `$`-free replacement is that
      replacement. */
  lemma ReplaceAllWhole(s: string, repl: string)
    requires s != [] && '$' !in repl
    ensures ReplaceAll(s, s, repl) == repl
  {
    assert OccursAt(s, s, 0);
    ReplaceAllFromStep(s, s, repl, 0);
    assert IndexOfFrom(s, s, |s|) == -1;
    assert ReplaceAllFrom(s, s, repl, |s|) == [];
    ExpandLiteral(repl, s, s[..0], s[|s|..]);
    assert s[0..0] == [];
  }

  /** A pattern longer than the text does not occur in it. */
  lemma LongerAbsent(s: string, pat: string)
    requires |pat| > |s|
    ensures !Contains(s, pat)
  {
  }

  /** A pattern that does not occur leaves the text unchanged. */
  lemma ReplaceAllAbsent(s: string, pat: string, repl: string)
    requires !Contains(s, pat)
    ensures ReplaceAll(s, pat, repl) == s
  {
    assert !OccursAt(s, pat, 0);
  }

  /** `s.replace(/c/g, r)` for a one-character pattern and a replacement
      without `$`: every `c` becomes `r`. */
  function ReplaceChar(s: string, c: char, r: string): (t: string)
    decreases |s|
  {
    if |s| == 0 then "" else (if s[0] == c then r else [s[0]]) + ReplaceChar(s[1..], c, r)
  }

  lemma {:induction false} ReplaceCharProperties(s: string, c: char, r: string)
    ensures c !in s ==> ReplaceChar(s, c, r) == s
    ensures c !in r ==> c !in ReplaceChar(s, c, r)
    ensures |r| >= 2 && c in s ==> ReplaceChar(s, c, r) != s
    ensures |r| >= 1 ==> |ReplaceChar(s, c, r)| >= |s|
    decreases |s|
  {
    if |s| > 0 {
      ReplaceCharProperties(s[1..], c, r);
      assert s == [s[0]] + s[1..];
      if |r| >= 2 && c in s {
        if s[0] == c {
          assert |ReplaceChar(s, c, r)| >= |r| + |s[1..]| > |s|;
        } else {
          assert c in s[1..];
          assert ReplaceChar(s, c, r)[1..] == ReplaceChar(s[1..], c, r);
        }
      }
    }
  }

  function DigitChar(d: nat): char
    requires d < 10
  {
    ('0' as int + d) as char
  }

  predicate IsDigit(c: char) {
    '0' <= c <= '9'
  }

  predicate AllDigits(s: string) {
    forall i :: 0 <= i < |s| ==> IsDigit(s[i])
  }

  /** `String(n)` for a non-negative integer: its decimal digits, no leading zero. */
  function NatToString(n: nat): (s: string)
    ensures |s| >= 1
    decreases n
  {
    if n < 10 then [DigitChar(n)] else NatToString(n / 10) + [DigitChar(n % 10)]
  }

  /** The number a string of decimal digits denotes. */
  function DigitsValue(s: string): nat
    requires AllDigits(s)
    decreases |s|
  {
    if |s| == 0 then 0 else DigitsValue(s[..|s| - 1]) * 10 + (s[|s| - 1] as int - '0' as int)
  }

  /** The array index a property key names, if it is the canonical decimal
      form of one (`"0"`, `"7"`, `"12"`; not `"07"`, `""` or `"-1"`). */
  function ParseIndex(key: string): Option<nat> {
    if |key| == 0 || !AllDigits(key) || (key[0] == '0' && |key| > 1) then None
    else Some(DigitsValue(key))
  }

  lemma {:induction false} NatToStringShape(n: nat)
    ensures AllDigits(NatToString(n))
    ensures DigitsValue(NatToString(n)) == n
    ensures n >= 10 ==> NatToString(n)[0] != '0'
    ensures n == 0 <==> NatToString(n) == "0"
    decreases n
  {
    if n >= 10 {
      NatToStringShape(n / 10);
      var p := NatToString(n / 10);
      var s := NatToString(n);
      assert s == p + [DigitChar(n % 10)];
      assert s[..|s| - 1] == p;
      assert s[0] == p[0];
    }
  }

  /** The decimal form of a number is read back as that number. */
  lemma IndexRoundTrip(n: nat)
    ensures ParseIndex(NatToString(n)) == Some(n)
  {
    NatToStringShape(n);
  }

  /** A key read as an index is exactly the decimal form of that index. */
  lemma {:induction false} IndexCanonical(key: string)
    requires ParseIndex(key).Some?
    ensures NatToString(ParseIndex(key).value) == key
    decreases |key|
  {
    var v := DigitsValue(key);
    if |key| == 1 {
      assert key[..0] == [];
      assert DigitsValue(key[..0]) == 0;
      assert IsDigit(key[0]);
      assert v == key[0] as int - '0' as int;
      assert DigitChar(v) == key[0];
    } else {
      var p := key[..|key| - 1];
      assert p[0] == key[0];
      assert AllDigits(p);
      assert ParseIndex(p) == Some(DigitsValue(p));
      IndexCanonical(p);
      assert DigitsValue(p) != 0;
      assert v / 10 == DigitsValue(p);
      assert DigitChar(v % 10) == key[|key| - 1];
      assert key == p + [key[|key| - 1]];
    }
  }

  /** Different numbers have different decimal forms. */
  lemma NatToStringInjective(m: nat, n: nat)
    requires NatToString(m) == NatToString(n)
    ensures m == n
  {
    IndexRoundTrip(m);
    IndexRoundTrip(n);
  }
}
