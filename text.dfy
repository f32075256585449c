/** The JavaScript string operations the pipeline relies on: `includes`,
    `toLowerCase`, the whitespace class `\s`, `replace(/\s+/g, " ")` and `trim`.
    Strings are sequences of characters; lengths count characters. */
module Text {
  import opened Seqs

  /** HORIZONTAL ELLIPSIS, appended to a truncated wheel label. */
  const Ellipsis: char := '\U{2026}'

  /** ECMAScript WhiteSpace and LineTerminator code points: exactly the
      characters matched by `\s` and removed by `String.prototype.trim`. */
  predicate IsSpace(c: char)
  {
    c == '\t' || c == '\n' || c == '\U{000B}' || c == '\U{000C}' || c == '\r'
    || c == ' ' || c == '\U{00A0}' || c == '\U{1680}'
    || ('\U{2000}' <= c <= '\U{200A}')
    || c == '\U{2028}' || c == '\U{2029}' || c == '\U{202F}' || c == '\U{205F}'
    || c == '\U{3000}' || c == '\U{FEFF}'
  }

  predicate IsVisible(c: char)
  {
    !IsSpace(c)
  }

  /** `toLowerCase` on the ASCII letters; every other character is kept. */
  function LowerChar(c: char): char
  {
    if 'A' <= c <= 'Z' then (c as int + 32) as char else c
  }

  function ToLower(s: string): string
  {
    seq(|s|, i requires 0 <= i < |s| => LowerChar(s[i]))
  }

  predicate StartsWith(s: string, prefix: string)
  {
    |prefix| <= |s| && s[..|prefix|] == prefix
  }

  predicate EndsWith(s: string, suffix: string)
  {
    |suffix| <= |s| && s[|s| - |suffix|..] == suffix
  }

  /** A concatenation starts with its first part and ends with its second. */
  lemma ConcatAffixes(a: string, b: string)
    ensures StartsWith(a + b, a) && EndsWith(a + b, b)
  {
    assert (a + b)[..|a|] == a;
    assert (a + b)[|a|..] == b;
  }

  /** Appending keeps a prefix. */
  lemma StartsWithAppend(s: string, prefix: string, t: string)
    requires StartsWith(s, prefix)
    ensures StartsWith(s + t, prefix)
  {
    assert (s + t)[..|prefix|] == s[..|prefix|];
  }

  /** `s.includes(part)`, searching from every start position in turn. */
  predicate Includes(s: string, part: string)
    decreases |s|
  {
    StartsWith(s, part) || (s != [] && Includes(s[1..], part))
  }

  /** `part` occurs in `s` starting at position `i`. */
  predicate OccursAt(s: string, part: string, i: int)
  {
    0 <= i && i + |part| <= |s| && s[i..i + |part|] == part
  }

  lemma {:induction false} OccursGivesIncludes(s: string, part: string, i: int)
    requires OccursAt(s, part, i)
    ensures Includes(s, part)
    decreases i
  {
    if i > 0 {
      assert s[1..][i - 1..i - 1 + |part|] == s[i..i + |part|];
      OccursGivesIncludes(s[1..], part, i - 1);
    }
  }

  lemma {:induction false} IncludesGivesOccurs(s: string, part: string) returns (i: int)
    requires Includes(s, part)
    ensures OccursAt(s, part, i)
    decreases |s|
  {
    if StartsWith(s, part) {
      i := 0;
    } else {
      var j := IncludesGivesOccurs(s[1..], part);
      assert s[1..][j..j + |part|] == s[j + 1..j + 1 + |part|];
      i := j + 1;
    }
  }

  /** `Includes` agrees with the positional definition of a substring. */
  lemma IncludesIffOccurs(s: string, part: string)
    ensures Includes(s, part) <==> exists i :: OccursAt(s, part, i)
  {
    if Includes(s, part) {
      var i := IncludesGivesOccurs(s, part);
    }
    forall i | OccursAt(s, part, i) ensures Includes(s, part) {
      OccursGivesIncludes(s, part, i);
    }
  }

  /** A string can only contain a part whose characters all occur in it. */
  lemma IncludesOnlyPresentChars(s: string, part: string, c: char)
    requires Includes(s, part) && c in part
    ensures c in s
  {
    IncludesIffOccurs(s, part);
    var i :| OccursAt(s, part, i);
    var m :| 0 <= m < |part| && part[m] == c;
    assert s[i..i + |part|][m] == s[i + m];
  }

  /** `trimStart`: drop the leading whitespace. */
  function TrimStart(s: string): (r: string)
    ensures |r| <= |s| && r == s[|s| - |r|..]
    ensures r == [] || IsVisible(r[0])
    decreases |s|
  {
    if s != [] && IsSpace(s[0]) then TrimStart(s[1..]) else s
  }

  /** `trimEnd`: drop the trailing whitespace. */
  function TrimEnd(s: string): (r: string)
    ensures |r| <= |s| && r == s[..|r|]
    ensures r == [] || IsVisible(r[|r| - 1])
    decreases |s|
  {
    if s != [] && IsSpace(s[|s| - 1]) then TrimEnd(s[..|s| - 1]) else s
  }

  /** `replace(/\s+/g, " ")`: every maximal run of whitespace becomes one space. */
  function CollapseSpaces(s: string): string
    decreases |s|
  {
    if s == [] then []
    else if IsSpace(s[0]) then [' '] + CollapseSpaces(TrimStart(s[1..]))
    else [s[0]] + CollapseSpaces(s[1..])
  }

  /** The characters of `s` that are not whitespace, in order. */
  function VisibleChars(s: string): string
  {
    Filter(s, IsVisible)
  }

  /** Every whitespace character is a plain space and is followed by a non-space. */
  predicate Collapsed(c: string)
  {
    forall i :: 0 <= i < |c| && IsSpace(c[i]) ==> c[i] == ' ' && (i + 1 < |c| ==> IsVisible(c[i + 1]))
  }

  /** Neither end of `c` is whitespace. */
  predicate Trimmed(c: string)
  {
    c == [] || (IsVisible(c[0]) && IsVisible(c[|c| - 1]))
  }

  /** The length of the run of visible characters at the start of `t`. */
  function VisibleRun(t: string): (n: nat)
    ensures n <= |t|
    ensures forall i :: 0 <= i < n ==> IsVisible(t[i])
    ensures n < |t| ==> IsSpace(t[n])
    decreases |t|
  {
    if t == [] || IsSpace(t[0]) then 0 else 1 + VisibleRun(t[1..])
  }

  /** Every character of `w` is visible. */
  predicate AllVisible(w: string)
  {
    forall i :: 0 <= i < |w| ==> IsVisible(w[i])
  }

  /** The words of `s`: its maximal runs of visible characters, in order. */
  function Words(s: string): (ws: seq<string>)
    ensures forall k :: 0 <= k < |ws| ==> ws[k] != [] && AllVisible(ws[k])
    decreases |s|
  {
    var t := TrimStart(s);
    if t == [] then []
    else
      var n := VisibleRun(t);
      LeadingRunIsWord(t, n);
      WordsCons(t[..n], Words(t[n..]));
      [t[..n]] + Words(t[n..])
  }

  /** The leading visible run of a string that starts visibly is a word. */
  lemma LeadingRunIsWord(t: string, n: nat)
    requires t != [] && IsVisible(t[0]) && n == VisibleRun(t)
    ensures t[..n] != [] && AllVisible(t[..n])
  {
    var w := t[..n];
    forall i | 0 <= i < |w| ensures IsVisible(w[i]) {
      assert w[i] == t[i];
    }
  }

  lemma WordsCons(w: string, ws: seq<string>)
    requires w != [] && AllVisible(w)
    requires forall k :: 0 <= k < |ws| ==> ws[k] != [] && AllVisible(ws[k])
    ensures forall k :: 0 <= k < |[w] + ws| ==> ([w] + ws)[k] != [] && AllVisible(([w] + ws)[k])
  {
    forall k | 0 <= k < |[w] + ws| ensures ([w] + ws)[k] != [] && AllVisible(([w] + ws)[k]) {
      if k > 0 {
        assert ([w] + ws)[k] == ws[k - 1];
      }
    }
  }

  /** The words with exactly one space between neighbours. */
  function JoinWithSpace(ws: seq<string>): string
  {
    if ws == [] then []
    else if |ws| == 1 then ws[0]
    else ws[0] + [' '] + JoinWithSpace(ws[1..])
  }

  /** `String(name).replace(/\s+/g, " ").trim()`: the words of the name, each
      run of whitespace between two of them replaced by one space. */
  function Clean(s: string): (c: string)
    ensures c == JoinWithSpace(Words(s))
    ensures Trimmed(c)
    ensures Collapsed(c)
    ensures VisibleChars(c) == VisibleChars(s)
  {
    CleanFacts(s);
    TrimStartCollapse(s);
    CollapseTrimIsJoin(s);
    TrimEnd(TrimStart(CollapseSpaces(s)))
  }

  /** Leading whitespace can be dropped before or after collapsing. */
  lemma TrimStartCollapse(s: string)
    ensures TrimStart(CollapseSpaces(s)) == CollapseSpaces(TrimStart(s))
  {
    if s != [] {
      if IsSpace(s[0]) {
        var t := TrimStart(s[1..]);
        var x := CollapseSpaces(t);
        assert ([' '] + x)[1..] == x;
        if t != [] {
          CollapseFirst(t);
        }
      } else {
        CollapseFirst(s);
      }
    }
  }

  lemma {:induction false} CollapseVisiblePrefix(v: string, r: string)
    requires forall i :: 0 <= i < |v| ==> IsVisible(v[i])
    ensures CollapseSpaces(v + r) == v + CollapseSpaces(r)
    decreases |v|
  {
    if v == [] {
      assert v + r == r;
    } else {
      assert (v + r)[0] == v[0];
      assert (v + r)[1..] == v[1..] + r;
      CollapseVisiblePrefix(v[1..], r);
      assert [v[0]] + (v[1..] + CollapseSpaces(r)) == v + CollapseSpaces(r);
    }
  }

  /** Trailing whitespace is removed only from a tail that still holds a visible character. */
  lemma {:induction false} TrimEndAppend(a: string, b: string, k: nat)
    requires k < |b| && IsVisible(b[k])
    ensures TrimEnd(a + b) == a + TrimEnd(b)
    decreases |b|
  {
    var ab := a + b;
    assert ab[|ab| - 1] == b[|b| - 1];
    if IsSpace(b[|b| - 1]) {
      var init := b[..|b| - 1];
      assert ab[..|ab| - 1] == a + init;
      assert init[k] == b[k];
      TrimEndAppend(a, init, k);
    }
  }

  lemma JoinCons(w: string, ws: seq<string>)
    requires ws != []
    ensures JoinWithSpace([w] + ws) == w + [' '] + JoinWithSpace(ws)
  {
    assert ([w] + ws)[0] == w;
    assert ([w] + ws)[1..] == ws;
  }

  /** Collapsing and trimming a string gives its words joined by single spaces. */
  lemma {:induction false} CollapseTrimIsJoin(x: string)
    ensures TrimEnd(CollapseSpaces(TrimStart(x))) == JoinWithSpace(Words(x))
    decreases |x|
  {
    if TrimStart(x) != [] {
      var v, r := FirstWordSplit(x);
      if r != [] && TrimStart(r) != [] {
        CollapseTrimIsJoin(TrimStart(r));
      }
      AfterFirstWord(v, r);
    }
  }

  /** A word, then either nothing or whitespace and a remainder whose cleaned
      form is its joined words. */
  lemma AfterFirstWord(v: string, r: string)
    requires v != [] && forall i :: 0 <= i < |v| ==> IsVisible(v[i])
    requires r != [] ==> IsSpace(r[0])
    requires r != [] && TrimStart(r) != [] ==>
               TrimEnd(CollapseSpaces(TrimStart(TrimStart(r)))) == JoinWithSpace(Words(TrimStart(r)))
    ensures TrimEnd(v + CollapseSpaces(r)) == JoinWithSpace([v] + Words(r))
  {
    if r == [] {
      LastWord(v);
    } else {
      var u := TrimStart(r);
      SpaceRunCollapses(r);
      WordsAfterSpace(r);
      if u == [] {
        LastWordBeforeSpace(v);
      } else {
        NextWord(v, u);
      }
    }
  }

  lemma WordsNonEmpty(x: string)
    requires TrimStart(x) != []
    ensures Words(x) != []
  {
  }

  /** One word followed by a space and a cleaned remainder that holds more words. */
  lemma NextWord(v: string, u: string)
    requires u != [] && TrimStart(u) == u
    requires TrimEnd(CollapseSpaces(TrimStart(u))) == JoinWithSpace(Words(u))
    ensures TrimEnd(v + ([' '] + CollapseSpaces(u))) == JoinWithSpace([v] + Words(u))
  {
    var rest, ws := CollapseSpaces(u), Words(u);
    CollapseFirst(u);
    WordsNonEmpty(u);
    calc {
      TrimEnd(v + ([' '] + rest));
      { ConcatAssoc(v, [' '], rest); }
      TrimEnd((v + [' ']) + rest);
      { TrimEndAppend(v + [' '], rest, 0); }
      (v + [' ']) + TrimEnd(rest);
      (v + [' ']) + JoinWithSpace(ws);
      { JoinCons(v, ws); }
      JoinWithSpace([v] + ws);
    }
  }

  /** The first word is the leading visible run `v` after the leading
      whitespace; `r` is what follows it. */
  lemma FirstWordSplit(x: string) returns (v: string, r: string)
    requires TrimStart(x) != []
    ensures v != [] && forall i :: 0 <= i < |v| ==> IsVisible(v[i])
    ensures r != [] ==> IsSpace(r[0])
    ensures |r| < |x|
    ensures CollapseSpaces(TrimStart(x)) == v + CollapseSpaces(r)
    ensures Words(x) == [v] + Words(r)
  {
    var t := TrimStart(x);
    var n := VisibleRun(t);
    v, r := t[..n], t[n..];
    forall i | 0 <= i < |v| ensures IsVisible(v[i]) {
      assert v[i] == t[i];
    }
    if r != [] {
      assert r[0] == t[n];
    }
    VisibleRunCollapse(t, n);
  }

  /** Collapsing leaves a leading visible run in place. */
  lemma VisibleRunCollapse(t: string, n: nat)
    requires n <= |t| && forall i :: 0 <= i < n ==> IsVisible(t[i])
    ensures CollapseSpaces(t) == t[..n] + CollapseSpaces(t[n..])
  {
    var v, r := t[..n], t[n..];
    assert v + r == t;
    CollapseVisiblePrefix(v, r);
  }

  lemma LastWord(v: string)
    requires v != [] && forall i :: 0 <= i < |v| ==> IsVisible(v[i])
    ensures TrimEnd(v + CollapseSpaces([])) == JoinWithSpace([v] + Words([]))
  {
    assert v + [] == v;
    assert [v] + [] == [v];
  }

  lemma LastWordBeforeSpace(v: string)
    requires v != [] && forall i :: 0 <= i < |v| ==> IsVisible(v[i])
    ensures TrimEnd(v + ([' '] + CollapseSpaces([]))) == JoinWithSpace([v] + Words([]))
  {
    var w := v + [' '];
    assert w[..|w| - 1] == v;
    assert [v] + [] == [v];
  }

  lemma SpaceRunCollapses(r: string)
    requires r != [] && IsSpace(r[0])
    ensures CollapseSpaces(r) == [' '] + CollapseSpaces(TrimStart(r))
  {
  }

  lemma WordsAfterSpace(r: string)
    ensures Words(r) == Words(TrimStart(r))
  {
    var u := TrimStart(r);
    assert TrimStart(u) == u;
  }

  lemma CleanFacts(s: string)
    ensures Trimmed(TrimEnd(TrimStart(CollapseSpaces(s))))
    ensures Collapsed(TrimEnd(TrimStart(CollapseSpaces(s))))
    ensures VisibleChars(TrimEnd(TrimStart(CollapseSpaces(s)))) == VisibleChars(s)
  {
    TrimmedAfterTrim(CollapseSpaces(s));
    CleanCollapsed(s);
    CleanKeepsVisible(s);
  }

  lemma CleanCollapsed(s: string)
    ensures Collapsed(TrimEnd(TrimStart(CollapseSpaces(s))))
  {
    CollapseIsCollapsed(s);
    TrimStartKeepsCollapsed(CollapseSpaces(s));
    TrimEndKeepsCollapsed(TrimStart(CollapseSpaces(s)));
  }

  lemma TrimStartKeepsCollapsed(c: string)
    requires Collapsed(c)
    ensures Collapsed(TrimStart(c))
  {
    var r := TrimStart(c);
    CollapsedSlice(c, |c| - |r|, |c|);
    assert c[|c| - |r|..|c|] == r;
  }

  lemma TrimEndKeepsCollapsed(c: string)
    requires Collapsed(c)
    ensures Collapsed(TrimEnd(c))
  {
    var r := TrimEnd(c);
    CollapsedSlice(c, 0, |r|);
    assert c[0..|r|] == r;
  }

  lemma CleanKeepsVisible(s: string)
    ensures VisibleChars(TrimEnd(TrimStart(CollapseSpaces(s)))) == VisibleChars(s)
  {
    var collapsed := CollapseSpaces(s);
    CollapseKeepsVisible(s);
    TrimStartKeepsVisible(collapsed);
    TrimEndKeepsVisible(TrimStart(collapsed));
  }

  lemma TrimmedAfterTrim(s: string)
    ensures Trimmed(TrimEnd(TrimStart(s)))
  {
    var start := TrimStart(s);
    var c := TrimEnd(start);
    if c != [] {
      assert c[0] == start[0];
    }
  }

  lemma CollapseFirst(s: string)
    requires s != []
    ensures CollapseSpaces(s) != []
    ensures CollapseSpaces(s)[0] == if IsSpace(s[0]) then ' ' else s[0]
  {
  }

  lemma CollapsedCons(x: char, r: string)
    requires Collapsed(r)
    requires IsSpace(x) ==> x == ' ' && (r == [] || IsVisible(r[0]))
    ensures Collapsed([x] + r)
  {
    var c := [x] + r;
    forall i | 0 <= i < |c| && IsSpace(c[i])
      ensures c[i] == ' ' && (i + 1 < |c| ==> IsVisible(c[i + 1]))
    {
      if i > 0 {
        assert c[i] == r[i - 1];
        if i + 1 < |c| {
          assert c[i + 1] == r[i];
        }
      } else if i + 1 < |c| {
        assert c[1] == r[0];
      }
    }
  }

  lemma CollapsedSlice(c: string, a: int, b: int)
    requires Collapsed(c) && 0 <= a <= b <= |c|
    ensures Collapsed(c[a..b])
  {
    var d := c[a..b];
    forall i | 0 <= i < |d| && IsSpace(d[i])
      ensures d[i] == ' ' && (i + 1 < |d| ==> IsVisible(d[i + 1]))
    {
      assert d[i] == c[a + i];
      if i + 1 < |d| {
        assert d[i + 1] == c[a + i + 1];
      }
    }
  }

  lemma {:induction false} CollapseIsCollapsed(s: string)
    ensures Collapsed(CollapseSpaces(s))
    decreases |s|
  {
    if s != [] {
      if IsSpace(s[0]) {
        var t := TrimStart(s[1..]);
        CollapseIsCollapsed(t);
        if t != [] {
          CollapseFirst(t);
        }
        CollapsedCons(' ', CollapseSpaces(t));
      } else {
        CollapseIsCollapsed(s[1..]);
        CollapsedCons(s[0], CollapseSpaces(s[1..]));
      }
    }
  }

  lemma VisibleCons(x: char, r: string)
    ensures VisibleChars([x] + r) == if IsSpace(x) then VisibleChars(r) else [x] + VisibleChars(r)
  {
    assert ([x] + r)[0] == x;
    assert ([x] + r)[1..] == r;
  }

  lemma {:induction false} TrimStartKeepsVisible(s: string)
    ensures VisibleChars(TrimStart(s)) == VisibleChars(s)
    decreases |s|
  {
    if s != [] && IsSpace(s[0]) {
      TrimStartKeepsVisible(s[1..]);
      VisibleCons(s[0], s[1..]);
      assert [s[0]] + s[1..] == s;
    }
  }

  lemma {:induction false} TrimEndKeepsVisible(s: string)
    ensures VisibleChars(TrimEnd(s)) == VisibleChars(s)
    decreases |s|
  {
    if s != [] && IsSpace(s[|s| - 1]) {
      var init, last := s[..|s| - 1], s[|s| - 1];
      TrimEndKeepsVisible(init);
      assert init + [last] == s;
      FilterDropsLast(init, last, IsVisible);
    }
  }

  lemma {:induction false} CollapseKeepsVisible(s: string)
    ensures VisibleChars(CollapseSpaces(s)) == VisibleChars(s)
    decreases |s|
  {
    if s != [] {
      VisibleCons(s[0], s[1..]);
      assert [s[0]] + s[1..] == s;
      if IsSpace(s[0]) {
        var t := TrimStart(s[1..]);
        CollapseKeepsVisible(t);
        TrimStartKeepsVisible(s[1..]);
        VisibleCons(' ', CollapseSpaces(t));
      } else {
        CollapseKeepsVisible(s[1..]);
        VisibleCons(s[0], CollapseSpaces(s[1..]));
      }
    }
  }

  /** A string that is already collapsed is left alone by `CollapseSpaces`. */
  lemma {:induction false} CollapseFixesCollapsed(c: string)
    requires Collapsed(c)
    ensures CollapseSpaces(c) == c
    decreases |c|
  {
    if c != [] {
      var rest := c[1..];
      CollapsedSlice(c, 1, |c|);
      CollapseFixesCollapsed(rest);
      if IsSpace(c[0]) {
        CollapsedHead(c);
        assert TrimStart(rest) == rest;
      }
      assert [c[0]] + rest == c;
    }
  }

  lemma CollapsedHead(c: string)
    requires Collapsed(c) && c != [] && IsSpace(c[0])
    ensures c[0] == ' '
    ensures c[1..] == [] || IsVisible(c[1..][0])
  {
    if |c| > 1 {
      assert c[1..][0] == c[1];
    }
  }

  /** Cleaning a label twice gives the same result as cleaning it once. */
  lemma CleanIdempotent(s: string)
    ensures Clean(Clean(s)) == Clean(s)
  {
    var c := Clean(s);
    CollapseFixesCollapsed(c);
    assert TrimStart(c) == c;
    assert TrimEnd(c) == c;
  }
}
