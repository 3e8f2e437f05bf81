/** Small value types and the string primitives that the rest of the model
    uses: Python's whitespace class, `str.strip`, `str.split(maxsplit=1)`,
    `sep.join`, slicing, substring search and decimal rendering. */
module Basics {

  /** Python's `Optional[T]`: `None` or a present value. */
  datatype Option<+T> = None | Some(value: T)

  /** A failure-carrying result; `Err` holds the text of a raised exception. */
  datatype Result<+T> = Ok(value: T) | Err(message: string)

  /** The characters Python's `str.isspace()` accepts, which is also what `\s`
      matches in a `str` regular expression. */
  predicate IsSpace(c: char) {
    || ('\t' <= c <= '\r')
    || ('\U{1C}' <= c <= '\U{1F}')
    || c == ' '
    || c == '\U{85}'
    || c == '\U{A0}'
    || c == '\U{1680}'
    || ('\U{2000}' <= c <= '\U{200A}')
    || c == '\U{2028}'
    || c == '\U{2029}'
    || c == '\U{202F}'
    || c == '\U{205F}'
    || c == '\U{3000}'
  }

  predicate NoSpace(s: string) {
    forall i :: 0 <= i < |s| ==> !IsSpace(s[i])
  }

  predicate AllSpace(s: string) {
    forall i :: 0 <= i < |s| ==> IsSpace(s[i])
  }

  /** Length of the whitespace run that starts `s`. */
  function LeadingSpace(s: string): (n: nat)
    ensures n <= |s|
    ensures forall i :: 0 <= i < n ==> IsSpace(s[i])
    ensures n < |s| ==> !IsSpace(s[n])
  {
    if |s| == 0 || !IsSpace(s[0]) then 0 else 1 + LeadingSpace(s[1..])
  }

  /** Length of the whitespace run that ends `s`. */
  function TrailingSpace(s: string): (n: nat)
    ensures n <= |s|
    ensures forall i :: |s| - n <= i < |s| ==> IsSpace(s[i])
    ensures n < |s| ==> !IsSpace(s[|s| - n - 1])
  {
    if |s| == 0 || !IsSpace(s[|s| - 1]) then 0 else 1 + TrailingSpace(s[..|s| - 1])
  }

  /** Drops leading whitespace. */
  function TrimStart(s: string): (r: string)
    ensures |r| <= |s| && r == s[|s| - |r|..]
    ensures AllSpace(s[..|s| - |r|])
    ensures r == [] || !IsSpace(r[0])
  {
    s[LeadingSpace(s)..]
  }

  /** Drops trailing whitespace. */
  function TrimEnd(s: string): (r: string)
    ensures |r| <= |s| && r == s[..|r|]
    ensures AllSpace(s[|r|..])
    ensures r == [] || !IsSpace(r[|r| - 1])
  {
    s[..|s| - TrailingSpace(s)]
  }

  /** Python's `s.strip()`: the longest infix of `s` that neither starts nor
      ends with whitespace, with only whitespace cut away on either side. */
  function Strip(s: string): (r: string)
    ensures r == [] || (!IsSpace(r[0]) && !IsSpace(r[|r| - 1]))
    ensures exists i :: 0 <= i && i + |r| <= |s| && s[i..i + |r|] == r
                        && AllSpace(s[..i]) && AllSpace(s[i + |r|..])
  {
    var t := TrimStart(s);
    var r := TrimEnd(t);
    StripWitness(s, t, r);
    r
  }

  lemma StripWitness(s: string, t: string, r: string)
    requires |t| <= |s| && t == s[|s| - |t|..] && AllSpace(s[..|s| - |t|])
    requires |r| <= |t| && r == t[..|r|] && AllSpace(t[|r|..])
    ensures var i := |s| - |t|;
            && 0 <= i && i + |r| <= |s| && s[i..i + |r|] == r
            && AllSpace(s[..i]) && AllSpace(s[i + |r|..])
  {
    var i := |s| - |t|;
    assert s[i + |r|..] == t[|r|..];
  }

  /** Prefix of `s` up to (not including) its first whitespace character. */
  function Word(s: string): (r: string)
    ensures r <= s && NoSpace(r)
    ensures |r| < |s| ==> IsSpace(s[|r|])
  {
    if |s| == 0 || IsSpace(s[0]) then [] else [s[0]] + Word(s[1..])
  }

  /** Python's `s.split(maxsplit=1)` for a string that does not start with
      whitespace and is non-empty: the first word and the remainder after the
      whitespace run that follows it ("" when there is no second part). */
  function SplitOnce(s: string): (parts: (string, string))
    requires |s| > 0 && !IsSpace(s[0])
    ensures |parts.0| > 0 && NoSpace(parts.0)
    ensures parts.1 == [] || !IsSpace(parts.1[0])
    ensures exists gap :: AllSpace(gap) && s == parts.0 + gap + parts.1
    ensures |parts.0| == |s| || IsSpace(s[|parts.0|])
  {
    var w := Word(s);
    var rest := TrimStart(s[|w|..]);
    assert s == w + s[|w|..|s| - |rest|] + rest;
    (w, rest)
  }

  /** A word that ends at whitespace or at the end of `s` is the longest
      whitespace-free prefix, so there is only one. */
  lemma MaximalWordIsUnique(s: string, w: string, w': string)
    requires w <= s && NoSpace(w) && (|w| == |s| || IsSpace(s[|w|]))
    requires w' <= s && NoSpace(w') && (|w'| == |s| || IsSpace(s[|w'|]))
    ensures w == w'
  {
    assert forall i :: 0 <= i < |w| ==> !IsSpace(s[i]) by {
      forall i | 0 <= i < |w| ensures !IsSpace(s[i]) { assert s[i] == w[i]; }
    }
    assert forall i :: 0 <= i < |w'| ==> !IsSpace(s[i]) by {
      forall i | 0 <= i < |w'| ensures !IsSpace(s[i]) { assert s[i] == w'[i]; }
    }
    assert |w| == |w'|;
    assert w == s[..|w|];
  }

  /** A whitespace run followed by a part that does not start with
      whitespace splits a text in only one way. */
  lemma GapIsUnique(gap: string, rest: string, gap': string, rest': string)
    requires AllSpace(gap) && (rest == [] || !IsSpace(rest[0]))
    requires AllSpace(gap') && (rest' == [] || !IsSpace(rest'[0]))
    requires gap + rest == gap' + rest'
    ensures rest == rest'
  {
    var t := gap + rest;
    assert forall i :: 0 <= i < |gap| ==> IsSpace(t[i]) by {
      forall i | 0 <= i < |gap| ensures IsSpace(t[i]) { assert t[i] == gap[i]; }
    }
    assert forall i :: 0 <= i < |gap'| ==> IsSpace(t[i]) by {
      forall i | 0 <= i < |gap'| ensures IsSpace(t[i]) { assert t[i] == (gap' + rest')[i] == gap'[i]; }
    }
    assert |gap| < |t| ==> !IsSpace(t[|gap|]) by {
      if |gap| < |t| { assert t[|gap|] == rest[0]; }
    }
    assert |gap'| < |t| ==> !IsSpace(t[|gap'|]) by {
      if |gap'| < |t| { assert t[|gap'|] == (gap' + rest')[|gap'|] == rest'[0]; }
    }
    assert |gap| == |gap'|;
    assert rest == t[|gap|..] == (gap' + rest')[|gap'|..];
  }

  /** A maximal first word, a whitespace gap and a remainder that does not
      start with whitespace split a text in only one way. */
  lemma SplitIsUnique(s: string, w: string, gap: string, rest: string, w': string, gap': string, rest': string)
    requires NoSpace(w) && AllSpace(gap) && (rest == [] || !IsSpace(rest[0]))
    requires s == w + gap + rest && (|w| == |s| || IsSpace(s[|w|]))
    requires NoSpace(w') && AllSpace(gap') && (rest' == [] || !IsSpace(rest'[0]))
    requires s == w' + gap' + rest' && (|w'| == |s| || IsSpace(s[|w'|]))
    ensures w == w' && rest == rest'
  {
    assert w <= s && w' <= s;
    MaximalWordIsUnique(s, w, w');
    assert s[|w|..] == gap + rest;
    assert s[|w|..] == gap' + rest';
    GapIsUnique(gap, rest, gap', rest');
  }

  /** The contract of `SplitOnce` pins the split down: any maximal first
      word, whitespace gap and remainder that rebuild `s` are its parts. */
  lemma SplitOnceIsUnique(s: string, w: string, gap: string, rest: string)
    requires |s| > 0 && !IsSpace(s[0])
    requires |w| > 0 && NoSpace(w) && AllSpace(gap) && (rest == [] || !IsSpace(rest[0]))
    requires s == w + gap + rest
    requires |w| == |s| || IsSpace(s[|w|])
    ensures SplitOnce(s) == (w, rest)
  {
    var p := SplitOnce(s);
    var gap' :| AllSpace(gap') && s == p.0 + gap' + p.1;
    SplitIsUnique(s, w, gap, rest, p.0, gap', p.1);
  }

  /** Python's `s[:n]`. */
  function Take(s: string, n: nat): (r: string)
    ensures |r| == if |s| <= n then |s| else n
    ensures r <= s
  {
    if |s| <= n then s else s[..n]
  }

  /** Python's `sep.join(parts)`. */
  function Join(parts: seq<string>, sep: string): (r: string)
    ensures |parts| == 0 ==> r == []
    ensures |parts| == 1 ==> r == parts[0]
  {
    if |parts| == 0 then []
    else if |parts| == 1 then parts[0]
    else parts[0] + sep + Join(parts[1..], sep)
  }

  /** `t` occurs in `s` at some position (Python's `t in s` on strings). */
  ghost predicate Infix(t: string, s: string) {
    exists i :: OccursAt(t, s, i)
  }

  /** `t` occurs in `s` starting at index `i`. */
  predicate OccursAt(t: string, s: string, i: int) {
    0 <= i && i + |t| <= |s| && forall j :: 0 <= j < |t| ==> s[i + j] == t[j]
  }

  /** Python's substring test `t in s`, computed by scanning. */
  predicate Contains(s: string, t: string)
    decreases |s|
  {
    t <= s || (|s| > 0 && Contains(s[1..], t))
  }

  /** An occurrence is either at the start or in the tail. */
  lemma InfixUnfold(t: string, s: string)
    ensures Infix(t, s) <==> t <= s || (|s| > 0 && Infix(t, s[1..]))
  {
    if t <= s {
      assert OccursAt(t, s, 0);
    }
    if |s| > 0 && Infix(t, s[1..]) {
      var i :| OccursAt(t, s[1..], i);
      assert OccursAt(t, s, i + 1);
    }
    if Infix(t, s) {
      var i :| OccursAt(t, s, i);
      if i == 0 {
        assert t == s[..|t|];
      } else {
        assert OccursAt(t, s[1..], i - 1);
      }
    }
  }

  lemma {:induction false} ContainsIsInfix(s: string, t: string)
    ensures Contains(s, t) <==> Infix(t, s)
    decreases |s|
  {
    InfixUnfold(t, s);
    if |s| > 0 {
      ContainsIsInfix(s[1..], t);
    }
  }

  lemma InfixOfConcat(a: string, t: string, b: string)
    ensures Infix(t, a + t + b)
  {
    assert OccursAt(t, a + t + b, |a|);
  }

  lemma InfixOfPrefix(x: string, y: string)
    ensures Infix(x, x + y)
  {
    assert OccursAt(x, x + y, 0);
  }

  lemma InfixOfSuffix(x: string, y: string)
    ensures Infix(y, x + y)
  {
    assert OccursAt(y, x + y, |x|);
  }

  lemma InfixExtendRight(t: string, x: string, y: string)
    requires Infix(t, x)
    ensures Infix(t, x + y)
  {
    var i :| OccursAt(t, x, i);
    assert OccursAt(t, x + y, i);
  }

  lemma PrefixExtendRight(a: string, x: string, y: string)
    requires a <= x
    ensures a <= x + y
  {
    assert (x + y)[..|a|] == x[..|a|];
  }

  /** `s.endswith(suffix)`. */
  predicate EndsWith(s: string, suffix: string) {
    |suffix| <= |s| && forall j :: 0 <= j < |suffix| ==> s[|s| - |suffix| + j] == suffix[j]
  }

  lemma EndsWithConcat(x: string, y: string)
    ensures EndsWith(x + y, y)
  {
  }

  lemma InfixTransitive(t: string, u: string, s: string)
    requires Infix(t, u) && Infix(u, s)
    ensures Infix(t, s)
  {
    var i :| OccursAt(t, u, i);
    var j :| OccursAt(u, s, j);
    assert forall k :: 0 <= k < |t| ==> s[j + i + k] == u[i + k] == t[k];
    assert OccursAt(t, s, j + i);
  }

  /** Every part of a join occurs in the joined text. */
  lemma {:induction false} JoinHasPart(parts: seq<string>, sep: string, k: nat)
    requires k < |parts|
    ensures Infix(parts[k], Join(parts, sep))
    decreases |parts|
  {
    if |parts| == 1 {
      InfixOfConcat([], parts[0], []);
      assert [] + parts[0] + [] == parts[0];
    } else if k == 0 {
      InfixOfConcat([], parts[0], sep + Join(parts[1..], sep));
      assert [] + parts[0] + (sep + Join(parts[1..], sep)) == Join(parts, sep);
    } else {
      JoinHasPart(parts[1..], sep, k - 1);
      InfixOfConcat(parts[0] + sep, Join(parts[1..], sep), []);
      assert parts[0] + sep + Join(parts[1..], sep) + [] == Join(parts, sep);
      InfixTransitive(parts[k], Join(parts[1..], sep), Join(parts, sep));
    }
  }

  function DigitChar(d: nat): (c: char)
    requires d < 10
    ensures '0' <= c <= '9'
  {
    (48 + d) as char
  }

  predicate IsDigits(s: string) {
    forall i :: 0 <= i < |s| ==> '0' <= s[i] <= '9'
  }

  /** Python's `str(n)` for a non-negative integer. */
  function NatToDecimal(n: nat): (s: string)
    ensures |s| > 0 && IsDigits(s)
    ensures s[0] == '0' ==> n == 0
    decreases n
  {
    if n < 10 then [DigitChar(n)] else NatToDecimal(n / 10) + [DigitChar(n % 10)]
  }

  /** Python's `int(s)` on a string of decimal digits. */
  function DecimalValue(s: string): nat
    requires IsDigits(s)
  {
    if s == [] then 0 else DecimalValue(s[..|s| - 1]) * 10 + (s[|s| - 1] as int - 48)
  }

  /** Parsing a rendered number gives the number back. */
  lemma {:induction false} DecimalRoundTrip(n: nat)
    ensures DecimalValue(NatToDecimal(n)) == n
    decreases n
  {
    if n >= 10 {
      DecimalRoundTrip(n / 10);
      var s := NatToDecimal(n);
      assert s[..|s| - 1] == NatToDecimal(n / 10);
    }
  }
}
