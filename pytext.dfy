/** The Python `str` operations the script applies to coordinate text:
    `strip()`, `split()` with no argument and `split(sep)`. `JoinOn` plays the
    part of `sep.join(...)`, which the script does not call; it is here only to
    state round trips. */
module PyText {

  /** The characters `str.isspace()` accepts, which is the whitespace that
      `str.split()` and `str.strip()` use when given no argument. */
  predicate IsSpace(c: char)
  {
    || '\t' <= c <= '\r'
    || '\U{1C}' <= c <= ' '
    || c == '\U{85}' || c == '\U{A0}' || c == '\U{1680}'
    || '\U{2000}' <= c <= '\U{200A}'
    || c == '\U{2028}' || c == '\U{2029}' || c == '\U{202F}' || c == '\U{205F}'
    || c == '\U{3000}'
  }

  predicate NoSpace(s: string)
  {
    forall i :: 0 <= i < |s| ==> !IsSpace(s[i])
  }

  predicate AllSpace(s: string)
  {
    forall i :: 0 <= i < |s| ==> IsSpace(s[i])
  }

  /** `s.lstrip()`: `s` without its leading whitespace. */
  function LStrip(s: string): (r: string)
    ensures |r| <= |s|
    decreases |s|
  {
    if s != [] && IsSpace(s[0]) then LStrip(s[1..]) else s
  }

  /** `s.rstrip()`: `s` without its trailing whitespace. */
  function RStrip(s: string): (r: string)
    ensures |r| <= |s|
    decreases |s|
  {
    if s != [] && IsSpace(s[|s| - 1]) then RStrip(s[..|s| - 1]) else s
  }

  /** `s.strip()`. */
  function Strip(s: string): string
  {
    RStrip(LStrip(s))
  }

  /** The longest prefix of `s` that holds no whitespace. */
  function Word(s: string): (w: string)
    ensures |w| <= |s|
  {
    if s == [] || IsSpace(s[0]) then [] else [s[0]] + Word(s[1..])
  }

  /** `s.split()`: the maximal runs of non-whitespace characters, in order.
      There are never more tokens than characters. */
  function Split(s: string): (ts: seq<string>)
    ensures |ts| <= |s|
    decreases |s|
  {
    var t := LStrip(s);
    if t == [] then []
    else
      var w := Word(t);
      assert w != [] by { LStripFacts(s); }
      [w] + Split(t[|w|..])
  }

  predicate IsToken(w: string)
  {
    w != [] && NoSpace(w)
  }

  /** `sep.join(fs)` for a one-character separator. */
  function JoinOn(fs: seq<string>, sep: char): string
  {
    if |fs| == 0 then []
    else if |fs| == 1 then fs[0]
    else fs[0] + [sep] + JoinOn(fs[1..], sep)
  }

  /** `s.split(sep)` for a one-character separator: fields are cut at every
      occurrence of `sep`, and empty fields are kept. */
  function SplitOn(s: string, sep: char): (fs: seq<string>)
    ensures |fs| >= 1
    ensures forall k :: 0 <= k < |fs| ==> sep !in fs[k]
    decreases |s|
  {
    if s == [] then [[]]
    else
      var rest := SplitOn(s[1..], sep);
      if s[0] == sep then [[]] + rest
      else
        assert sep !in [s[0]] + rest[0];
        [[s[0]] + rest[0]] + rest[1..]
  }

  /** The characters of `s` that are not whitespace, in order. */
  function NonSpace(s: string): string
  {
    if s == [] then []
    else (if IsSpace(s[0]) then [] else [s[0]]) + NonSpace(s[1..])
  }

  function Concat(ws: seq<string>): string
  {
    if ws == [] then [] else ws[0] + Concat(ws[1..])
  }

  // ---------------------------------------------------------------------
  // Lemmas about split()

  /** `lstrip()` removes a prefix made of whitespace only, and what it leaves
      starts with a non-space character or is empty. */
  lemma {:induction false} LStripFacts(s: string)
    ensures var r := LStrip(s);
      && r == s[|s| - |r|..]
      && AllSpace(s[..|s| - |r|])
      && (r == [] || !IsSpace(r[0]))
    decreases |s|
  {
    if s != [] && IsSpace(s[0]) {
      LStripFacts(s[1..]);
      var r := LStrip(s);
      assert s[..|s| - |r|] == [s[0]] + s[1..][..|s| - 1 - |r|];
    }
  }

  /** `rstrip()` removes a suffix made of whitespace only, and what it leaves
      ends with a non-space character or is empty. */
  lemma {:induction false} RStripFacts(s: string)
    ensures var r := RStrip(s);
      && r == s[..|r|]
      && AllSpace(s[|r|..])
      && (r == [] || !IsSpace(r[|r| - 1]))
    decreases |s|
  {
    if s != [] && IsSpace(s[|s| - 1]) {
      var t := s[..|s| - 1];
      RStripFacts(t);
      var r := RStrip(t);
      assert s[|r|..] == t[|r|..] + [s[|s| - 1]];
    }
  }

  /** `strip()` keeps a middle part of `s` and removes only the whitespace
      before and after it; that part is empty, or starts and ends with a
      non-space character. */
  lemma StripFacts(s: string)
    ensures var p := |s| - |LStrip(s)|;
      var r := Strip(s);
      && p + |r| <= |s|
      && r == s[p..p + |r|]
      && AllSpace(s[..p])
      && AllSpace(s[p + |r|..])
      && (r == [] || (!IsSpace(r[0]) && !IsSpace(r[|r| - 1])))
  {
    LStripFacts(s);
    RStripFacts(LStrip(s));
  }

  /** `Word(s)` is a whitespace-free prefix of `s` that ends where `s` does or
      at a whitespace character. */
  lemma {:induction false} WordFacts(s: string)
    ensures var w := Word(s);
      && w == s[..|w|] && NoSpace(w)
      && (|w| == |s| || IsSpace(s[|w|]))
    decreases |s|
  {
    if s != [] && !IsSpace(s[0]) {
      WordFacts(s[1..]);
    }
  }

  /** No token is empty or holds whitespace, whatever whitespace surrounds or
      repeats between the tokens. */
  lemma {:induction false} SplitTokens(s: string)
    ensures forall k :: 0 <= k < |Split(s)| ==> IsToken(Split(s)[k])
    decreases |s|
  {
    var t := LStrip(s);
    if t != [] {
      LStripFacts(s);
      WordStarts(t);
      WordFacts(t);
      var w := Word(t);
      var r := Split(t[|w|..]);
      SplitFirst(s, w, t[|w|..]);
      SplitTokens(t[|w|..]);
      TokensCons(w, r);
    }
  }

  lemma TokensCons(w: string, r: seq<string>)
    requires IsToken(w)
    requires forall k :: 0 <= k < |r| ==> IsToken(r[k])
    ensures forall k :: 0 <= k < |[w] + r| ==> IsToken(([w] + r)[k])
  {
    forall k | 0 <= k < |[w] + r| ensures IsToken(([w] + r)[k]) {
      if k > 0 { assert ([w] + r)[k] == r[k - 1]; }
    }
  }

  lemma {:induction false} LStripSpacePrefix(sp: string, s: string)
    requires AllSpace(sp)
    ensures LStrip(sp + s) == LStrip(s)
    decreases |sp|
  {
    if sp == [] {
      assert sp + s == s;
    } else {
      assert (sp + s)[0] == sp[0] && (sp + s)[1..] == sp[1..] + s;
      LStripSpacePrefix(sp[1..], s);
    }
  }

  /** Leading whitespace yields no token. */
  lemma SplitSpacePrefix(sp: string, s: string)
    requires AllSpace(sp)
    ensures Split(sp + s) == Split(s)
  {
    LStripSpacePrefix(sp, s);
  }

  lemma {:induction false} WordOf(w: string, rest: string)
    requires NoSpace(w)
    requires rest == [] || IsSpace(rest[0])
    ensures Word(w + rest) == w
    decreases |w|
  {
    if w != [] {
      assert (w + rest)[1..] == w[1..] + rest;
      WordOf(w[1..], rest);
    }
  }

  /** A word followed by whitespace or by nothing is the first token. */
  lemma SplitCons(w: string, rest: string)
    requires w != [] && NoSpace(w)
    requires rest == [] || IsSpace(rest[0])
    ensures Split(w + rest) == [w] + Split(rest)
  {
    WordOf(w, rest);
    assert (w + rest)[|w|..] == rest;
  }

  /** Tokens separated by any non-empty run of whitespace are split apart. */
  lemma SplitWordThenSpace(w: string, sp: string, s: string)
    requires w != [] && NoSpace(w)
    requires sp != [] && AllSpace(sp)
    ensures Split(w + sp + s) == [w] + Split(s)
  {
    assert w + sp + s == w + (sp + s);
    SplitCons(w, sp + s);
    SplitSpacePrefix(sp, s);
  }

  /** Splitting `s` is splitting it without its leading whitespace. */
  lemma SplitLStrip(s: string)
    ensures Split(s) == Split(LStrip(s))
  {
    var t := LStrip(s);
    LStripFacts(s);
    var p := s[..|s| - |t|];
    assert s == p + t;
    SplitSpacePrefix(p, t);
  }

  /** Concatenation regroups freely. */
  lemma AppendAssoc(a: string, b: string, c: string)
    ensures (a + b) + c == a + (b + c)
  {
  }

  lemma SplitFirst(s: string, w: string, rest: string)
    requires LStrip(s) != [] && Word(LStrip(s)) == w && LStrip(s)[|w|..] == rest
    ensures Split(s) == [w] + Split(rest)
  {
  }

  /** A text that starts with a non-space character starts with a non-empty word. */
  lemma WordStarts(t: string)
    requires t != [] && !IsSpace(t[0])
    ensures Word(t) != [] && t == Word(t) + t[|Word(t)|..]
  {
    WordFacts(t);
    SliceJoin(t, |Word(t)|);
  }

  lemma {:induction false} LStripAppend(s: string, x: string)
    ensures LStrip(s + x) == if LStrip(s) == [] then LStrip(x) else LStrip(s) + x
    decreases |s|
  {
    if s == [] {
      assert s + x == x;
    } else {
      assert (s + x)[0] == s[0] && (s + x)[1..] == s[1..] + x;
      if IsSpace(s[0]) {
        LStripAppend(s[1..], x);
      }
    }
  }

  /** Trailing whitespace yields no token. */
  lemma {:induction false} SplitSpaceSuffix(s: string, sp: string)
    requires AllSpace(sp)
    ensures Split(s + sp) == Split(s)
    decreases |s|
  {
    var t := LStrip(s);
    LStripAppend(s, sp);
    if t == [] {
      LStripSpacePrefix(sp, []);
      assert sp + [] == sp;
    } else {
      LStripFacts(s);
      WordStarts(t);
      WordFacts(t);
      var w := Word(t);
      var rest := t[|w|..];
      AppendAssoc(w, rest, sp);
      WordOf(w, rest + sp);
      assert (t + sp)[|w|..] == rest + sp;
      SplitFirst(s + sp, w, rest + sp);
      SplitFirst(s, w, rest);
      SplitSpaceSuffix(rest, sp);
    }
  }

  /** `s.strip().split() == s.split()`: stripping first changes no token. */
  lemma SplitIgnoresStrip(s: string)
    ensures Split(Strip(s)) == Split(s)
  {
    var t := LStrip(s);
    SplitLStrip(s);
    var r := RStrip(t);
    RStripFacts(t);
    SliceJoin(t, |r|);
    SplitSpaceSuffix(r, t[|r|..]);
  }

  /** A text is its first n characters followed by the rest. */
  lemma SliceJoin(s: string, n: nat)
    requires n <= |s|
    ensures s == s[..n] + s[n..]
  {
  }

  /** A single token splits to itself. */
  lemma SplitToken(w: string)
    requires IsToken(w)
    ensures Split(w) == [w]
  {
    SplitCons(w, []);
    assert w + [] == w;
  }

  /** Joining well-formed tokens with single spaces and splitting again gives
      the tokens back. */
  lemma {:induction false} SplitJoinSpace(ws: seq<string>)
    requires forall k :: 0 <= k < |ws| ==> IsToken(ws[k])
    ensures Split(JoinOn(ws, ' ')) == ws
    decreases |ws|
  {
    if |ws| == 1 {
      SplitToken(ws[0]);
    } else if |ws| > 1 {
      var j := JoinOn(ws[1..], ' ');
      SplitWordThenSpace(ws[0], [' '], j);
      SplitJoinSpace(ws[1..]);
      assert [ws[0]] + ws[1..] == ws;
    }
  }

  lemma {:induction false} NonSpaceAppend(a: string, b: string)
    ensures NonSpace(a + b) == NonSpace(a) + NonSpace(b)
    decreases |a|
  {
    if a == [] {
      assert a + b == b;
    } else {
      var x := if IsSpace(a[0]) then [] else [a[0]];
      assert (a + b)[0] == a[0] && (a + b)[1..] == a[1..] + b;
      NonSpaceAppend(a[1..], b);
      assert NonSpace(a + b) == x + (NonSpace(a[1..]) + NonSpace(b));
      assert NonSpace(a) == x + NonSpace(a[1..]);
    }
  }

  lemma {:induction false} NonSpaceOfSpace(sp: string)
    requires AllSpace(sp)
    ensures NonSpace(sp) == []
    decreases |sp|
  {
    if sp != [] {
      NonSpaceOfSpace(sp[1..]);
    }
  }

  lemma {:induction false} NonSpaceOfWord(w: string)
    requires NoSpace(w)
    ensures NonSpace(w) == w
    decreases |w|
  {
    if w != [] {
      NonSpaceOfWord(w[1..]);
    }
  }

  /** The tokens together hold exactly the non-whitespace characters of `s`,
      in order: `split()` drops whitespace and nothing else. */
  lemma {:induction false} SplitKeepsNonSpace(s: string)
    ensures Concat(Split(s)) == NonSpace(s)
    decreases |s|
  {
    var t := LStrip(s);
    LStripFacts(s);
    var p := s[..|s| - |t|];
    assert s == p + t;
    NonSpaceAppend(p, t);
    NonSpaceOfSpace(p);
    if t != [] {
      WordFacts(t);
      var w := Word(t);
      var rest := t[|w|..];
      assert t == w + rest;
      NonSpaceAppend(w, rest);
      NonSpaceOfWord(w);
      SplitKeepsNonSpace(rest);
    }
  }

  // ---------------------------------------------------------------------
  // Lemmas about split(sep) and join

  /** `sep.join(s.split(sep)) == s`. */
  lemma {:induction false} JoinSplitOn(s: string, sep: char)
    ensures JoinOn(SplitOn(s, sep), sep) == s
    decreases |s|
  {
    if s != [] {
      var rest := SplitOn(s[1..], sep);
      JoinSplitOn(s[1..], sep);
      if s[0] == sep {
        assert SplitOn(s, sep)[1..] == rest;
      } else {
        var fs := SplitOn(s, sep);
        assert fs[1..] == rest[1..];
        if |rest| > 1 {
          assert JoinOn(rest, sep) == rest[0] + [sep] + JoinOn(rest[1..], sep);
        }
      }
    }
  }

  lemma {:induction false} SplitOnNoSep(a: string, sep: char)
    requires sep !in a
    ensures SplitOn(a, sep) == [a]
    decreases |a|
  {
    if a != [] {
      assert a == [a[0]] + a[1..];
      SplitOnNoSep(a[1..], sep);
    }
  }

  lemma {:induction false} SplitOnCons(a: string, b: string, sep: char)
    requires sep !in a
    ensures SplitOn(a + [sep] + b, sep) == [a] + SplitOn(b, sep)
    decreases |a|
  {
    if a == [] {
      assert a + [sep] + b == [sep] + b;
      assert ([sep] + b)[1..] == b;
    } else {
      assert (a + [sep] + b)[1..] == a[1..] + [sep] + b;
      SplitOnCons(a[1..], b, sep);
      assert [a[0]] + a[1..] == a;
    }
  }

  /** `sep.join(fs).split(sep) == fs` when no field holds `sep`. */
  lemma {:induction false} SplitOnJoin(fs: seq<string>, sep: char)
    requires |fs| >= 1
    requires forall k :: 0 <= k < |fs| ==> sep !in fs[k]
    ensures SplitOn(JoinOn(fs, sep), sep) == fs
    decreases |fs|
  {
    if |fs| == 1 {
      SplitOnNoSep(fs[0], sep);
    } else {
      SplitOnCons(fs[0], JoinOn(fs[1..], sep), sep);
      SplitOnJoin(fs[1..], sep);
    }
  }
}
