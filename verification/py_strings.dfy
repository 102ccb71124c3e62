/**
 * The Python string built-ins the pipeline relies on: `str.isspace`,
 * `str.strip`, `str.split(sep)`, `str.split()`, `sep.join`, `in` on strings,
 * `int(text)`, `str(value)` and `os.path.join`.
 */
module PyStrings {

  import opened Wrappers
  import opened PyValues

  // ---------------------------------------------------------------------------
  // Whitespace and stripping
  // ---------------------------------------------------------------------------

  /**
   * Python's `str.isspace()` for one character. The same set is used by
   * `str.strip()`, `str.split()` and the regular-expression class `\s`.
   */
  predicate IsSpace(c: char) {
    || ('\U{0009}' <= c <= '\U{000D}')
    || ('\U{001C}' <= c <= '\U{0020}')
    || c == '\U{0085}' || c == '\U{00A0}' || c == '\U{1680}'
    || ('\U{2000}' <= c <= '\U{200A}')
    || c == '\U{2028}' || c == '\U{2029}' || c == '\U{202F}'
    || c == '\U{205F}' || c == '\U{3000}'
  }

  /** No whitespace at either end. */
  predicate NoEdgeSpace(s: string) {
    |s| == 0 || (!IsSpace(s[0]) && !IsSpace(s[|s| - 1]))
  }

  /** Every character is whitespace. */
  predicate AllSpace(s: string) {
    forall i :: 0 <= i < |s| ==> IsSpace(s[i])
  }

  function LStrip(s: string): (r: string)
    ensures |r| <= |s| && r == s[|s| - |r|..]
    ensures |r| > 0 ==> !IsSpace(r[0])
    decreases |s|
  {
    if |s| > 0 && IsSpace(s[0]) then LStrip(s[1..]) else s
  }

  function RStrip(s: string): (r: string)
    ensures |r| <= |s| && r == s[..|r|]
    ensures |r| > 0 ==> !IsSpace(r[|r| - 1])
    decreases |s|
  {
    if |s| > 0 && IsSpace(s[|s| - 1]) then RStrip(s[..|s| - 1]) else s
  }

  /** `s.strip()`: drop the leading and trailing whitespace, keep the middle. */
  function Strip(s: string): (r: string)
    ensures NoEdgeSpace(r)
    ensures NoEdgeSpace(s) ==> r == s
  {
    RStrip(LStrip(s))
  }

  /** What `lstrip` removes is whitespace only. */
  lemma {:induction false} LStripDropsSpace(s: string)
    ensures AllSpace(s[..|s| - |LStrip(s)|])
    decreases |s|
  {
    if |s| > 0 && IsSpace(s[0]) {
      LStripDropsSpace(s[1..]);
      var k := |s| - |LStrip(s)|;
      assert forall i :: 1 <= i < k ==> s[..k][i] == s[1..][..k - 1][i - 1];
    }
  }

  /** What `rstrip` removes is whitespace only. */
  lemma {:induction false} RStripDropsSpace(s: string)
    ensures AllSpace(s[|RStrip(s)|..])
    decreases |s|
  {
    if |s| > 0 && IsSpace(s[|s| - 1]) {
      var t := s[..|s| - 1];
      RStripDropsSpace(t);
      var k := |RStrip(s)|;
      assert forall i :: 0 <= i < |t| - k ==> s[k..][i] == t[k..][i];
    }
  }

  /** Concatenation is associative; as a lemma it spares callers the pointwise argument. */
  lemma ConcatAssoc<T>(a: seq<T>, b: seq<T>, c: seq<T>)
    ensures a + (b + c) == a + b + c
  {
  }

  /** `strip()` keeps the slice of `s` that starts where the leading whitespace ends. */
  lemma StripSlice(s: string)
    ensures var i := |s| - |LStrip(s)|;
      i + |Strip(s)| <= |s| && Strip(s) == s[i..i + |Strip(s)|]
  {
    var l := LStrip(s);
    var r := RStrip(l);
    var i := |s| - |l|;
    assert l == s[i..];
    assert r == l[..|r|];
    forall k | 0 <= k < |r|
      ensures r[k] == s[i + k]
    {
      assert r[k] == l[k];
    }
  }

  /** `strip()` removes whitespace only, on both sides of the slice it keeps. */
  lemma StripDropsSpace(s: string)
    ensures var i := |s| - |LStrip(s)|;
      i + |Strip(s)| <= |s| && AllSpace(s[..i]) && AllSpace(s[i + |Strip(s)|..])
  {
    var l := LStrip(s);
    var i := |s| - |l|;
    var r := RStrip(l);
    assert l == s[i..];
    LStripDropsSpace(s);
    RStripDropsSpace(l);
    assert l[|r|..] == s[i + |r|..];
  }

  /** `strip()` gives `""` exactly for all-whitespace text. */
  lemma StripEmpty(s: string)
    ensures Strip(s) == "" <==> AllSpace(s)
  {
    var l := LStrip(s);
    var i := |s| - |l|;
    if Strip(s) == "" {
      LStripDropsSpace(s);
      RStripDropsSpace(l);
      assert s[..i] == s;
    }
  }

  /** Stripping keeps a contiguous middle part and removes only whitespace around it. */
  lemma StripFacts(s: string)
    ensures var i := |s| - |LStrip(s)|; var r := Strip(s);
      && i + |r| <= |s| && r == s[i..i + |r|]
      && AllSpace(s[..i]) && AllSpace(s[i + |r|..])
      && (r == "" <==> AllSpace(s))
  {
    StripSlice(s);
    StripDropsSpace(s);
    StripEmpty(s);
  }

  // ---------------------------------------------------------------------------
  // Substrings and counting
  // ---------------------------------------------------------------------------

  /** `sub in s` for strings. */
  predicate HasInfix(s: string, sub: string)
    decreases |s|
  {
    (|sub| <= |s| && s[..|sub|] == sub) || (|s| > 0 && HasInfix(s[1..], sub))
  }

  lemma {:induction false} InfixOfConcat(a: string, sub: string, b: string)
    ensures HasInfix(a + sub + b, sub)
    decreases |a|
  {
    if |a| == 0 {
      assert (a + sub + b)[..|sub|] == sub;
    } else {
      InfixOfConcat(a[1..], sub, b);
      assert (a + sub + b)[1..] == a[1..] + sub + b;
    }
  }

  /** Number of occurrences of the character `c` in `s`. */
  function CountChar(s: string, c: char): nat
    decreases |s|
  {
    if |s| == 0 then 0 else (if s[0] == c then 1 else 0) + CountChar(s[1..], c)
  }

  // ---------------------------------------------------------------------------
  // Join and split on a separator
  // ---------------------------------------------------------------------------

  /** `sep.join(xs)`. */
  function Join(sep: string, xs: seq<string>): string
    decreases |xs|
  {
    if |xs| == 0 then ""
    else if |xs| == 1 then xs[0]
    else xs[0] + sep + Join(sep, xs[1..])
  }

  /** `s.split(sep)` for a non-empty separator: scan left to right, cut at each occurrence. */
  function Split(s: string, sep: string): (parts: seq<string>)
    requires |sep| > 0
    ensures |parts| >= 1
    decreases |s|
  {
    if |s| < |sep| then [s]
    else if s[..|sep|] == sep then [""] + Split(s[|sep|..], sep)
    else
      var rest := Split(s[1..], sep);
      [[s[0]] + rest[0]] + rest[1..]
  }

  lemma JoinCons(sep: string, x: string, xs: seq<string>)
    requires |xs| > 0
    ensures Join(sep, [x] + xs) == x + sep + Join(sep, xs)
  {
    assert ([x] + xs)[1..] == xs;
  }

  /** Putting a character in front of the first piece puts it in front of the join. */
  lemma JoinFirstCons(sep: string, c: char, xs: seq<string>)
    requires |xs| > 0
    ensures Join(sep, [[c] + xs[0]] + xs[1..]) == [c] + Join(sep, xs)
  {
    if |xs| > 1 {
      JoinCons(sep, [c] + xs[0], xs[1..]);
      assert xs == [xs[0]] + xs[1..];
      JoinCons(sep, xs[0], xs[1..]);
      assert [c] + xs[0] + sep + Join(sep, xs[1..]) == [c] + (xs[0] + sep + Join(sep, xs[1..]));
    }
  }

  /** The inductive step of `JoinSplit` at an occurrence of the separator. */
  lemma JoinSplitAtSep(s: string, sep: string)
    requires |sep| > 0 && |sep| <= |s| && s[..|sep|] == sep
    requires Join(sep, Split(s[|sep|..], sep)) == s[|sep|..]
    ensures Join(sep, Split(s, sep)) == s
  {
    var rest := Split(s[|sep|..], sep);
    assert Split(s, sep) == [""] + rest;
    JoinCons(sep, "", rest);
    assert "" + sep + s[|sep|..] == s;
  }

  /** The inductive step of `JoinSplit` at a character that starts no separator. */
  lemma JoinSplitAtChar(s: string, sep: string)
    requires |sep| > 0 && |sep| <= |s| && s[..|sep|] != sep
    requires Join(sep, Split(s[1..], sep)) == s[1..]
    ensures Join(sep, Split(s, sep)) == s
  {
    var rest := Split(s[1..], sep);
    assert Split(s, sep) == [[s[0]] + rest[0]] + rest[1..];
    JoinFirstCons(sep, s[0], rest);
    assert [s[0]] + s[1..] == s;
  }

  /** Joining the pieces of a split with the same separator gives back the input. */
  lemma {:induction false} JoinSplit(s: string, sep: string)
    requires |sep| > 0
    ensures Join(sep, Split(s, sep)) == s
    decreases |s|
  {
    if |s| < |sep| {
    } else if s[..|sep|] == sep {
      JoinSplit(s[|sep|..], sep);
      JoinSplitAtSep(s, sep);
    } else {
      JoinSplit(s[1..], sep);
      JoinSplitAtChar(s, sep);
    }
  }

  /** An occurrence of `sep` starts at index `i` of `s`. */
  predicate SepAt(s: string, sep: string, i: int) {
    0 <= i && i + |sep| <= |s| && s[i..i + |sep|] == sep
  }

  /** No occurrence of `sep` starts before index `k` of `s`. */
  predicate NoSepBefore(s: string, sep: string, k: int) {
    forall i :: 0 <= i < k ==> !SepAt(s, sep, i)
  }

  /** A split cuts at the first occurrence of the separator. */
  lemma {:induction false} SplitAt(s: string, sep: string, k: nat)
    requires |sep| > 0 && k + |sep| <= |s|
    requires s[k..k + |sep|] == sep
    requires NoSepBefore(s, sep, k)
    ensures Split(s, sep) == [s[..k]] + Split(s[k + |sep|..], sep)
    decreases k
  {
    if k == 0 {
      assert s[..|sep|] == s[0..0 + |sep|];
    } else {
      assert !SepAt(s, sep, 0);
      assert s[..|sep|] == s[0..0 + |sep|];
      var t := s[1..];
      assert t[k - 1..k - 1 + |sep|] == s[k..k + |sep|];
      forall i | 0 <= i < k - 1
        ensures !SepAt(t, sep, i)
      {
        assert !SepAt(s, sep, i + 1);
        if i + |sep| <= |t| {
          assert t[i..i + |sep|] == s[i + 1..i + 1 + |sep|];
        }
      }
      SplitAt(t, sep, k - 1);
      assert t[k - 1 + |sep|..] == s[k + |sep|..];
      assert [s[0]] + t[..k - 1] == s[..k];
    }
  }

  /** A string without the separator splits into itself alone. */
  lemma {:induction false} SplitNone(s: string, sep: string)
    requires |sep| > 0
    requires NoSepBefore(s, sep, |s|)
    ensures Split(s, sep) == [s]
    decreases |s|
  {
    if |s| < |sep| {
    } else {
      assert s[..|sep|] == s[0..0 + |sep|];
      var t := s[1..];
      assert !SepAt(s, sep, 0);
      forall i | 0 <= i < |t|
        ensures !SepAt(t, sep, i)
      {
        assert !SepAt(s, sep, i + 1);
        if i + |sep| <= |t| {
          assert t[i..i + |sep|] == s[i + 1..i + 1 + |sep|];
        }
      }
      SplitNone(t, sep);
      assert [s[0]] + t == s;
    }
  }

  /** A one-character separator cuts a string into one more piece than it occurs. */
  lemma {:induction false} SplitCharCount(s: string, c: char)
    ensures |Split(s, [c])| == CountChar(s, c) + 1
    decreases |s|
  {
    if |s| == 0 {
    } else {
      SplitCharCount(s[1..], c);
      assert s[..1] == [s[0]];
    }
  }

  /** If no piece contains the separator's first character, split undoes join. */
  lemma {:induction false} SplitJoin(sep: string, xs: seq<string>)
    requires |sep| > 0 && |xs| > 0
    requires forall j :: 0 <= j < |xs| ==> sep[0] !in xs[j]
    ensures Split(Join(sep, xs), sep) == xs
    decreases |xs|
  {
    var x := xs[0];
    NoFirstCharNoSep(x, sep, "");
    if |xs| == 1 {
      assert x + "" == x;
      SplitNone(x, sep);
    } else {
      var rest := Join(sep, xs[1..]);
      var s := x + sep + rest;
      assert s[|x|..|x| + |sep|] == sep;
      NoFirstCharNoSep(x, sep, sep + rest);
      ConcatAssoc(x, sep, rest);
      SplitAt(s, sep, |x|);
      assert s[..|x|] == x;
      assert s[|x| + |sep|..] == rest;
      SplitJoin(sep, xs[1..]);
    }
  }

  /** An occurrence of `sep` starting inside `x` would need `sep[0]` in `x`. */
  lemma NoFirstCharNoSep(x: string, sep: string, tail: string)
    requires |sep| > 0 && sep[0] !in x
    ensures NoSepBefore(x + tail, sep, |x|)
  {
    var s := x + tail;
    forall i | 0 <= i < |x|
      ensures !SepAt(s, sep, i)
    {
      if i + |sep| <= |s| {
        assert s[i..i + |sep|][0] == x[i];
      }
    }
  }

  /**
   * No occurrence of `sep` starts inside `x` when its `j`-th character is
   * missing from `x` and from the first `j` characters that follow `x`.
   */
  lemma NoSepIfCharAbsent(x: string, sep: string, j: nat, tail: string)
    requires j < |sep| && sep[j] !in x
    requires forall t :: 0 <= t < j && t < |tail| ==> tail[t] != sep[j]
    ensures NoSepBefore(x + tail, sep, |x|)
  {
    var s := x + tail;
    forall i | 0 <= i < |x|
      ensures !SepAt(s, sep, i)
    {
      if i + |sep| <= |s| {
        assert s[i..i + |sep|][j] == s[i + j];
        if i + j < |x| {
          assert s[i + j] == x[i + j];
        } else {
          assert s[i + j] == tail[i + j - |x|];
        }
      }
    }
  }

  /** Every character of a substring occurs in the string. */
  lemma {:induction false} InfixFirstChar(s: string, sub: string)
    requires |sub| > 0 && HasInfix(s, sub)
    ensures sub[0] in s
    decreases |s|
  {
    if |sub| <= |s| && s[..|sub|] == sub {
      assert s[0] == sub[0];
    } else {
      InfixFirstChar(s[1..], sub);
    }
  }

  // ---------------------------------------------------------------------------
  // Whitespace split
  // ---------------------------------------------------------------------------

  /** The longest prefix of `s` without whitespace. */
  function Word(s: string): (w: string)
    ensures |w| <= |s| && w == s[..|w|]
    ensures forall i :: 0 <= i < |w| ==> !IsSpace(w[i])
    ensures |w| < |s| ==> IsSpace(s[|w|])
    decreases |s|
  {
    if |s| == 0 || IsSpace(s[0]) then "" else [s[0]] + Word(s[1..])
  }

  /** A non-empty token with no whitespace in it. */
  predicate IsToken(t: string) {
    |t| > 0 && forall i :: 0 <= i < |t| ==> !IsSpace(t[i])
  }

  /** `s.split()`: the maximal runs of non-whitespace characters, in order. */
  function SplitWs(s: string): (ts: seq<string>)
    ensures forall j :: 0 <= j < |ts| ==> IsToken(ts[j])
    decreases |s|
  {
    if |s| == 0 then []
    else if IsSpace(s[0]) then SplitWs(s[1..])
    else
      var w := Word(s);
      [w] + SplitWs(s[|w|..])
  }

  lemma WordOfToken(w: string, tail: string)
    requires IsToken(w)
    requires |tail| == 0 || IsSpace(tail[0])
    ensures Word(w + tail) == w
    decreases |w|
  {
    if |w| > 1 {
      assert (w + tail)[1..] == w[1..] + tail;
      WordOfToken(w[1..], tail);
    } else {
      assert (w + tail)[1..] == tail;
    }
  }

  /** A token followed by whitespace is the first piece of a whitespace split. */
  lemma SplitWsToken(w: string, sp: char, rest: string)
    requires IsToken(w) && IsSpace(sp)
    ensures SplitWs(w + [sp] + rest) == [w] + SplitWs(rest)
  {
    var s := w + [sp] + rest;
    WordOfToken(w, [sp] + rest);
    assert s == w + ([sp] + rest);
    assert s[|w|..] == [sp] + rest;
    assert ([sp] + rest)[1..] == rest;
  }

  lemma SplitWsSingle(w: string)
    requires IsToken(w)
    ensures SplitWs(w) == [w]
  {
    WordOfToken(w, "");
    assert w + "" == w;
  }

  // ---------------------------------------------------------------------------
  // Integers
  // ---------------------------------------------------------------------------

  predicate IsDigit(c: char) {
    '0' <= c <= '9'
  }

  /** Decimal digits, optionally grouped by single underscores, as `int()` accepts them. */
  predicate DigitGroups(t: string) {
    && |t| > 0 && IsDigit(t[0]) && IsDigit(t[|t| - 1])
    && (forall i :: 0 <= i < |t| ==> IsDigit(t[i]) || t[i] == '_')
    && (forall i :: 0 <= i < |t| - 1 ==> t[i] == '_' ==> t[i + 1] != '_')
  }

  /** The value of a run of digits, underscores ignored. */
  function DigitsValue(t: string): nat
    decreases |t|
  {
    if |t| == 0 then 0
    else if IsDigit(t[|t| - 1]) then DigitsValue(t[..|t| - 1]) * 10 + (t[|t| - 1] as int - '0' as int)
    else DigitsValue(t[..|t| - 1])
  }

  /**
   * `int(t)`: surrounding whitespace allowed, an optional sign, then decimal
   * digits; anything else raises ValueError.
   */
  function IntParse(t: string): (r: Result<int, Error>)
    ensures r.Err? ==> r.error == BadValue
  {
    var u := Strip(t);
    if |u| > 0 && (u[0] == '+' || u[0] == '-') then
      if DigitGroups(u[1..]) then
        var v: int := DigitsValue(u[1..]);
        Ok(if u[0] == '-' then -v else v)
      else Err(BadValue)
    else if DigitGroups(u) then Ok(DigitsValue(u))
    else Err(BadValue)
  }

  function DigitChar(d: nat): char
    requires d < 10
  {
    ('0' as int + d) as char
  }

  /** `str(n)` for a natural number. */
  function NatToString(n: nat): (s: string)
    ensures |s| > 0
    ensures forall i :: 0 <= i < |s| ==> IsDigit(s[i])
    decreases n
  {
    if n < 10 then [DigitChar(n)] else NatToString(n / 10) + [DigitChar(n % 10)]
  }

  /** `str(i)` for any integer. */
  function IntToString(i: int): string {
    if i < 0 then "-" + NatToString(-i) else NatToString(i)
  }

  lemma {:induction false} DigitsOfNat(n: nat)
    ensures DigitsValue(NatToString(n)) == n
    decreases n
  {
    var s := NatToString(n);
    if n >= 10 {
      DigitsOfNat(n / 10);
      assert s[..|s| - 1] == NatToString(n / 10);
    }
  }

  /** `int(str(n)) == n` for every natural number. */
  lemma IntParseNat(n: nat)
    ensures IntParse(NatToString(n)) == Ok(n)
  {
    var s := NatToString(n);
    assert NoEdgeSpace(s) by {
      assert IsDigit(s[0]) && IsDigit(s[|s| - 1]);
    }
    DigitsOfNat(n);
  }

  // ---------------------------------------------------------------------------
  // Formatting and paths
  // ---------------------------------------------------------------------------

  /**
   * `str(v)` / f-string interpolation of a value. Containers are printed by
   * their Python `repr`, which the model takes as the parameter `reprOf`.
   */
  function Format(v: Json, reprOf: Json -> string): string {
    match v
    case JStr(s) => s
    case JInt(i) => IntToString(i)
    case JNull => "None"
    case JBool(b) => if b then "True" else "False"
    case _ => reprOf(v)
  }

  /** `os.path.join(a, b)` on POSIX: an absolute `b` replaces `a`. */
  function PathJoin(a: string, b: string): (p: string)
    ensures |b| > 0 && b[0] == '/' ==> p == b
    ensures !(|b| > 0 && b[0] == '/') ==> exists mid :: mid in {"", "/"} && p == a + mid + b
  {
    if |b| > 0 && b[0] == '/' then b
    else if a == "" || a[|a| - 1] == '/' then a + "" + b
    else a + "/" + b
  }
}
