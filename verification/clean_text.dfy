/**
 * `TextCleaner.clean` (`preprocessing/clean_text.py`): HTML tags out, hazm
 * normalisation, symbols out, whitespace collapsed. The hazm normaliser and
 * the Unicode word class `\w` belong to libraries and are parameters.
 */
module CleanText {

  import opened Wrappers
  import opened PyValues
  import opened PyStrings

  /** The library parts of the cleaner: `Normalizer().normalize` and membership in `\w`. */
  datatype Cleaner = Cleaner(normalize: string -> string, isWord: char -> bool)

  // ---------------------------------------------------------------------------
  // Tags: re.sub(r'<.*?>', ' ', text)
  // ---------------------------------------------------------------------------

  /**
   * Where `.*?>` stops in `t`: the index of the first `>` when no newline
   * comes before it (`.` does not match a newline).
   */
  function CloseIn(t: string): (k: Option<nat>)
    ensures k.Some? ==> k.value < |t| && t[k.value] == '>'
    ensures k.Some? ==> forall j :: 0 <= j < k.value ==> t[j] != '>' && t[j] != '\n'
    decreases |t|
  {
    if |t| == 0 || t[0] == '\n' then None
    else if t[0] == '>' then Some(0)
    else match CloseIn(t[1..])
      case None => None
      case Some(k) => Some(k + 1)
  }

  /**
   * `html_pattern.sub(' ', s)`: scan left to right, each shortest tag becomes
   * one space. Text never grows, and text without `<` is left as it is.
   */
  function StripTags(s: string): (r: string)
    ensures |r| <= |s|
    ensures '<' !in s ==> r == s
    decreases |s|
  {
    if |s| == 0 then ""
    else if s[0] == '<' && CloseIn(s[1..]).Some? then
      " " + StripTags(s[CloseIn(s[1..]).value + 2..])
    else [s[0]] + StripTags(s[1..])
  }

  /** No `<` in `r` starts a tag: each one meets a newline or the end before any `>`. */
  predicate TagFree(r: string)
    decreases |r|
  {
    |r| == 0 || ((r[0] == '<' ==> CloseIn(r[1..]).None?) && TagFree(r[1..]))
  }

  /** Text in which no tag can close stays so after the tags of it are replaced. */
  lemma {:induction false} OpenPreserved(t: string)
    requires CloseIn(t).None?
    ensures CloseIn(StripTags(t)).None?
    decreases |t|
  {
    if |t| > 0 && t[0] != '\n' {
      OpenPreserved(t[1..]);
      var r := StripTags(t);
      assert r == [t[0]] + StripTags(t[1..]);
      assert r[1..] == StripTags(t[1..]);
    }
  }

  /** After tag removal no tag is left: each remaining `<` meets a newline or the end first. */
  lemma {:induction false} StripTagsTagFree(s: string)
    ensures TagFree(StripTags(s))
    decreases |s|
  {
    if |s| > 0 {
      if s[0] == '<' && CloseIn(s[1..]).Some? {
        var k := CloseIn(s[1..]).value;
        StripTagsTagFree(s[k + 2..]);
        assert (" " + StripTags(s[k + 2..]))[1..] == StripTags(s[k + 2..]);
      } else {
        StripTagsTagFree(s[1..]);
        if s[0] == '<' {
          OpenPreserved(s[1..]);
        }
        assert ([s[0]] + StripTags(s[1..]))[1..] == StripTags(s[1..]);
      }
    }
  }

  /** Text before the first `<` is copied as it is. */
  lemma {:induction false} StripTagsPlain(a: string, x: string)
    requires '<' !in a
    ensures StripTags(a + x) == a + StripTags(x)
    decreases |a|
  {
    if |a| > 0 {
      assert (a + x)[0] == a[0];
      assert (a + x)[1..] == a[1..] + x;
      StripTagsPlain(a[1..], x);
      ConcatAssoc([a[0]], a[1..], StripTags(x));
      assert [a[0]] + a[1..] == a;
    } else {
      assert a + x == x;
    }
  }

  /** `.*?>` run over a newline-free, `>`-free stretch stops at the `>` after it. */
  lemma {:induction false} CloseInAfter(m: string, rest: string)
    requires '>' !in m && '\n' !in m
    ensures CloseIn(m + ">" + rest) == Some(|m|)
    decreases |m|
  {
    var t := m + ">" + rest;
    if |m| == 0 {
      assert t[0] == '>';
    } else {
      assert t[0] == m[0];
      assert t[1..] == m[1..] + ">" + rest;
      CloseInAfter(m[1..], rest);
    }
  }

  /**
   * A tag `<m>` whose inside holds no `>` and no newline becomes one space;
   * the text before it is kept and the text after it is scanned on.
   */
  lemma StripTagsSpan(a: string, m: string, b: string)
    requires '<' !in a && '>' !in m && '\n' !in m
    ensures StripTags(a + "<" + m + ">" + b) == a + " " + StripTags(b)
  {
    var t := "<" + m + ">" + b;
    assert a + "<" + m + ">" + b == a + t;
    StripTagsPlain(a, t);
    assert t[1..] == m + ">" + b;
    CloseInAfter(m, b);
    assert t[|m| + 2..] == b;
  }

  // ---------------------------------------------------------------------------
  // Symbols: re.sub(r'[^\w\sآ-ی]', ' ', text)
  // ---------------------------------------------------------------------------

  /** The characters the symbol pattern leaves alone: word characters, whitespace, `آ`..`ی`. */
  predicate Allowed(c: char, isWord: char -> bool) {
    isWord(c) || IsSpace(c) || ('آ' <= c <= 'ی')
  }

  /** `emoji_pattern.sub(' ', s)`: every other character becomes a space. */
  function RemoveSymbols(s: string, isWord: char -> bool): (r: string)
    ensures |r| == |s|
    ensures forall i :: 0 <= i < |r| ==> Allowed(r[i], isWord)
    ensures forall i :: 0 <= i < |s| ==> Allowed(s[i], isWord) ==> r[i] == s[i]
  {
    seq(|s|, i requires 0 <= i < |s| => if Allowed(s[i], isWord) then s[i] else ' ')
  }

  /** Removing symbols twice is removing them once. */
  lemma RemoveSymbolsIdempotent(s: string, isWord: char -> bool)
    ensures RemoveSymbols(RemoveSymbols(s, isWord), isWord) == RemoveSymbols(s, isWord)
  {
  }

  // ---------------------------------------------------------------------------
  // Spaces: re.sub(r'\s+', ' ', text).strip()
  // ---------------------------------------------------------------------------

  lemma LStripShorter(s: string)
    requires |s| > 0 && IsSpace(s[0])
    ensures |LStrip(s)| < |s|
  {
  }

  /**
   * `space_pattern.sub(' ', s)`: every maximal run of whitespace becomes one
   * space. Text never grows, and text without whitespace is left as it is.
   */
  function Collapse(s: string): (r: string)
    ensures |r| <= |s|
    ensures (forall i :: 0 <= i < |s| ==> !IsSpace(s[i])) ==> r == s
    decreases |s|
  {
    if |s| == 0 then ""
    else if IsSpace(s[0]) then
      LStripShorter(s);
      " " + Collapse(LStrip(s))
    else [s[0]] + Collapse(s[1..])
  }

  /** Every character of `s` is one the symbol pattern leaves alone. */
  predicate AllAllowed(s: string, isWord: char -> bool) {
    forall i :: 0 <= i < |s| ==> Allowed(s[i], isWord)
  }

  lemma SliceAllowed(s: string, i: nat, j: nat, isWord: char -> bool)
    requires i <= j <= |s| && AllAllowed(s, isWord)
    ensures AllAllowed(s[i..j], isWord)
  {
    var t := s[i..j];
    forall k | 0 <= k < |t|
      ensures Allowed(t[k], isWord)
    {
      assert t[k] == s[i + k];
    }
  }

  lemma ConsAllowed(c: char, t: string, isWord: char -> bool)
    requires Allowed(c, isWord) && AllAllowed(t, isWord)
    ensures AllAllowed([c] + t, isWord)
  {
    var r := [c] + t;
    forall k | 0 <= k < |r|
      ensures Allowed(r[k], isWord)
    {
      if k > 0 { assert r[k] == t[k - 1]; }
    }
  }

  /** Collapsing brings no character in but the space, so it keeps text symbol-free. */
  lemma {:induction false} CollapseKeepsAllowed(s: string, isWord: char -> bool)
    requires AllAllowed(s, isWord)
    ensures AllAllowed(Collapse(s), isWord)
    decreases |s|
  {
    if |s| > 0 {
      if IsSpace(s[0]) {
        LStripShorter(s);
        var t := LStrip(s);
        SliceAllowed(s, |s| - |t|, |s|, isWord);
        assert s[|s| - |t|..|s|] == t;
        CollapseKeepsAllowed(t, isWord);
        ConsAllowed(' ', Collapse(t), isWord);
      } else {
        SliceAllowed(s, 1, |s|, isWord);
        assert s[1..|s|] == s[1..];
        CollapseKeepsAllowed(s[1..], isWord);
        assert Allowed(s[0], isWord);
        ConsAllowed(s[0], Collapse(s[1..]), isWord);
      }
    }
  }

  /** No whitespace at the ends, no whitespace but `' '`, and no two spaces in a row. */
  predicate Tidy(r: string) {
    && NoEdgeSpace(r)
    && (forall i :: 0 <= i < |r| ==> IsSpace(r[i]) ==> r[i] == ' ')
    && (forall i :: 0 <= i < |r| - 1 ==> r[i] == ' ' ==> r[i + 1] != ' ')
  }

  /** Leading whitespace does not change the tokens. */
  lemma {:induction false} SplitWsLStrip(s: string)
    ensures SplitWs(LStrip(s)) == SplitWs(s)
    decreases |s|
  {
    if |s| > 0 && IsSpace(s[0]) {
      SplitWsLStrip(s[1..]);
    }
  }

  /** A run of non-whitespace passes through the collapse unchanged. */
  lemma {:induction false} CollapseWord(s: string)
    requires |s| > 0 && !IsSpace(s[0])
    ensures Collapse(s) == Word(s) + Collapse(s[|Word(s)|..])
    decreases |s|
  {
    var t := s[1..];
    var w := Word(s);
    assert Collapse(s) == [s[0]] + Collapse(t);
    if |t| > 0 && !IsSpace(t[0]) {
      CollapseWord(t);
      var k := |Word(t)|;
      assert w == [s[0]] + Word(t);
      assert s[k + 1..] == t[k..];
      ConcatAssoc([s[0]], Word(t), Collapse(t[k..]));
    } else {
      assert w == [s[0]];
    }
  }

  /** Stripping ignores a leading space. */
  lemma StripSpaceCons(x: string)
    ensures Strip(" " + x) == Strip(x)
  {
    assert (" " + x)[1..] == x;
  }

  /** Trailing whitespace of `a + b` is that of `b` when `b` starts with a non-space. */
  lemma {:induction false} RStripAppend(a: string, b: string)
    requires |b| > 0 && !IsSpace(b[0])
    ensures RStrip(a + b) == a + RStrip(b)
    decreases |b|
  {
    var s := a + b;
    if IsSpace(b[|b| - 1]) {
      var b' := b[..|b| - 1];
      assert s[..|s| - 1] == a + b';
      RStripAppend(a, b');
    }
  }

  /** Stripping `w + " " + c` for a word `w` and a text `c` that starts with a non-space. */
  lemma StripWordThen(w: string, c: string)
    requires |w| > 0 && !IsSpace(w[0]) && |c| > 0 && !IsSpace(c[0])
    ensures Strip(w + " " + c) == w + " " + Strip(c)
  {
    var s := w + " " + c;
    assert LStrip(s) == s;
    RStripAppend(w + " ", c);
    assert LStrip(c) == c;
  }

  /** Stripping a word with at most one space after it gives the word. */
  lemma StripWordEnd(w: string, tail: string)
    requires IsToken(w) && (tail == "" || tail == " ")
    ensures Strip(w + tail) == w
  {
    var s := w + tail;
    assert LStrip(s) == s;
    if tail == " " {
      assert s[..|s| - 1] == w;
      assert RStrip(s) == RStrip(w);
    }
    assert NoEdgeSpace(w);
  }

  /** The inductive step for text that starts with whitespace. */
  lemma CollapseTokensSpace(s: string)
    requires |s| > 0 && IsSpace(s[0])
    requires Strip(Collapse(LStrip(s))) == Join(" ", SplitWs(LStrip(s)))
    ensures Strip(Collapse(s)) == Join(" ", SplitWs(s))
  {
    StripSpaceCons(Collapse(LStrip(s)));
    SplitWsLStrip(s);
  }

  /** The inductive step for a last word, perhaps followed by whitespace. */
  lemma CollapseTokensLast(s: string)
    requires |s| > 0 && !IsSpace(s[0])
    requires LStrip(s[|Word(s)|..]) == ""
    ensures Strip(Collapse(s)) == Join(" ", SplitWs(s))
  {
    var w := Word(s);
    var rest := s[|w|..];
    CollapseWord(s);
    assert SplitWs(s) == [w] + SplitWs(rest);
    SplitWsLStrip(rest);
    if |rest| == 0 {
      StripWordEnd(w, "");
      assert w + "" == w;
    } else {
      assert rest[0] == s[|w|];
      assert IsSpace(rest[0]);
      assert Collapse(rest) == " " + Collapse(LStrip(rest));
      assert Collapse(rest) == " ";
      assert Collapse(s) == w + " ";
      StripWordEnd(w, " ");
    }
  }

  /** A word, then whitespace, then more text: the collapse puts one space after the word. */
  lemma CollapseWordThen(s: string)
    requires |s| > 0 && !IsSpace(s[0]) && |s[|Word(s)|..]| > 0
    ensures Collapse(s) == Word(s) + " " + Collapse(LStrip(s[|Word(s)|..]))
  {
    var w := Word(s);
    var rest := s[|w|..];
    CollapseWord(s);
    assert rest[0] == s[|w|];
    var c := Collapse(LStrip(rest));
    assert Collapse(rest) == " " + c;
    ConcatAssoc(w, " ", c);
  }

  /** A word, then whitespace, then more words: the word is the first token. */
  lemma SplitWsWordThen(s: string)
    requires |s| > 0 && !IsSpace(s[0]) && |LStrip(s[|Word(s)|..])| > 0
    ensures var u := LStrip(s[|Word(s)|..]);
      SplitWs(s) == [Word(s)] + SplitWs(u) && |SplitWs(u)| > 0
  {
    var u := LStrip(s[|Word(s)|..]);
    SplitWsLStrip(s[|Word(s)|..]);
    assert SplitWs(u) == [Word(u)] + SplitWs(u[|Word(u)|..]);
  }

  /** The inductive step for a word followed by more words. */
  lemma CollapseTokensWord(s: string)
    requires |s| > 0 && !IsSpace(s[0])
    requires var u := LStrip(s[|Word(s)|..]);
      |u| > 0 && Strip(Collapse(u)) == Join(" ", SplitWs(u))
    ensures Strip(Collapse(s)) == Join(" ", SplitWs(s))
  {
    var w := Word(s);
    var u := LStrip(s[|w|..]);
    CollapseWordThen(s);
    SplitWsWordThen(s);
    var c := Collapse(u);
    assert c == [u[0]] + Collapse(u[1..]);
    StripWordThen(w, c);
    JoinCons(" ", w, SplitWs(u));
  }

  /** Collapsing and stripping keeps the tokens and puts exactly one space between them. */
  lemma {:induction false} CollapseStripTokens(s: string)
    ensures Strip(Collapse(s)) == Join(" ", SplitWs(s))
    decreases |s|
  {
    if |s| == 0 {
    } else if IsSpace(s[0]) {
      LStripShorter(s);
      CollapseStripTokens(LStrip(s));
      CollapseTokensSpace(s);
    } else {
      var u := LStrip(s[|Word(s)|..]);
      if |u| == 0 {
        CollapseTokensLast(s);
      } else {
        CollapseStripTokens(u);
        CollapseTokensWord(s);
      }
    }
  }

  /** A join of tokens starts with the first character of the first token. */
  lemma JoinTokensHead(toks: seq<string>)
    requires |toks| > 0 && IsToken(toks[0])
    ensures |Join(" ", toks)| > 0 && Join(" ", toks)[0] == toks[0][0]
  {
  }

  /** A join of tokens ends with the last character of the last token. */
  lemma {:induction false} JoinTokensLast(toks: seq<string>)
    requires |toks| > 0 && forall j :: 0 <= j < |toks| ==> IsToken(toks[j])
    requires IsToken(toks[|toks| - 1])
    ensures var r := Join(" ", toks); |r| > 0 && r[|r| - 1] == toks[|toks| - 1][|toks[|toks| - 1]| - 1]
    decreases |toks|
  {
    if |toks| > 1 {
      JoinTokensLast(toks[1..]);
    }
  }

  /** Tokens joined by single spaces form tidy text. */
  lemma {:induction false} JoinTokensTidy(toks: seq<string>)
    requires forall j :: 0 <= j < |toks| ==> IsToken(toks[j])
    ensures Tidy(Join(" ", toks))
    decreases |toks|
  {
    if |toks| == 1 {
      assert Join(" ", toks) == toks[0];
    } else if |toks| > 1 {
      var t := toks[0];
      var rest := Join(" ", toks[1..]);
      JoinTokensTidy(toks[1..]);
      JoinTokensHead(toks[1..]);
      JoinTokensLast(toks);
      var r := Join(" ", toks);
      assert r == t + " " + rest;
      forall i | 0 <= i < |r|
        ensures IsSpace(r[i]) ==> r[i] == ' '
        ensures i < |r| - 1 && r[i] == ' ' ==> r[i + 1] != ' '
      {
        if i < |t| {
          assert r[i] == t[i];
          if i + 1 < |t| { assert r[i + 1] == t[i + 1]; }
        } else if i == |t| {
          assert r[i + 1] == rest[0];
        } else {
          assert r[i] == rest[i - |t| - 1];
          if i + 1 < |r| { assert r[i + 1] == rest[i - |t|]; }
        }
      }
    }
  }

  /** Stripping keeps a slice, so it keeps text symbol-free. */
  lemma StripKeepsAllowed(s: string, isWord: char -> bool)
    requires AllAllowed(s, isWord)
    ensures AllAllowed(Strip(s), isWord)
  {
    StripSlice(s);
    var j := |s| - |LStrip(s)|;
    SliceAllowed(s, j, j + |Strip(s)|, isWord);
  }

  // ---------------------------------------------------------------------------
  // clean
  // ---------------------------------------------------------------------------

  /**
   * `clean(text)` for a non-empty string, step by step in the order of the
   * source: the result is tidy and holds only characters the symbol pattern
   * keeps.
   */
  function CleanString(s: string, c: Cleaner): (r: string)
    ensures Tidy(r) && AllAllowed(r, c.isWord)
  {
    var untagged := StripTags(s);
    var normalised := c.normalize(untagged);
    var symbolFree := RemoveSymbols(normalised, c.isWord);
    CollapseStripTokens(symbolFree);
    JoinTokensTidy(SplitWs(symbolFree));
    CollapseKeepsAllowed(symbolFree, c.isWord);
    StripKeepsAllowed(Collapse(symbolFree), c.isWord);
    Strip(Collapse(symbolFree))
  }

  /**
   * The cleaned text is the tokens of the symbol-free text joined by single
   * spaces: tidy, and made of characters the symbol pattern keeps.
   */
  lemma CleanIsTokens(s: string, c: Cleaner)
    ensures CleanString(s, c) == Join(" ", SplitWs(RemoveSymbols(c.normalize(StripTags(s)), c.isWord)))
  {
    CollapseStripTokens(RemoveSymbols(c.normalize(StripTags(s)), c.isWord));
  }

  /**
   * `clean(text)` on a message value: a falsy value gives `''`; a truthy
   * value that is not a string makes the regular-expression call raise TypeError.
   */
  function Clean(v: Json, c: Cleaner): (r: Result<string, Error>)
    ensures r.Ok? <==> !Truthy(v) || v.JStr?
    ensures !Truthy(v) ==> r == Ok("")
    ensures r.Err? ==> r.error == TypeError
    ensures v.JStr? && v.s != "" ==> r == Ok(CleanString(v.s, c))
  {
    if !Truthy(v) then Ok("")
    else if !v.JStr? then Err(TypeError)
    else Ok(CleanString(v.s, c))
  }

  /** Whatever `clean` returns is tidy and symbol-free. */
  lemma CleanOutput(v: Json, c: Cleaner)
    requires Clean(v, c).Ok?
    ensures Tidy(Clean(v, c).value) && AllAllowed(Clean(v, c).value, c.isWord)
  {
  }

  /**
   * The symbol pattern removes `<` and `>` unless the word class holds them,
   * so no tag bracket survives `clean`, whether or not the tag pattern
   * matched it.
   */
  lemma NoAngleBrackets(v: Json, c: Cleaner)
    requires !c.isWord('<') && !c.isWord('>') && Clean(v, c).Ok?
    ensures '<' !in Clean(v, c).value && '>' !in Clean(v, c).value
  {
    var r := Clean(v, c).value;
    CleanOutput(v, c);
    forall i | 0 <= i < |r|
      ensures r[i] != '<' && r[i] != '>'
    {
      assert Allowed(r[i], c.isWord);
    }
  }
}
