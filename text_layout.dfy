/** Greedy word wrap and vertical centring of caption lines (wrapText). */
module TextLayout {
  import opened Canvas
  import opened Seqs

  // ---------------------------------------------------------------------
  // Splitting the caption into words, as `split(' ')` does

  /** The state of a left-to-right scan for `split(' ')`: the words already
      ended by a space and the word being read. */
  datatype Scan = Scan(done: seq<string>, current: string)

  /** The scan after the first `n` characters of `s`: a space ends the
      current word, any other character extends it. */
  function ScanUpTo(s: string, n: nat): (sc: Scan)
    requires n <= |s|
    ensures ' ' !in sc.current
    ensures forall i :: 0 <= i < |sc.done| ==> ' ' !in sc.done[i]
  {
    if n == 0 then Scan([], "")
    else
      var sc := ScanUpTo(s, n - 1);
      if s[n - 1] == ' ' then Scan(sc.done + [sc.current], "")
      else Scan(sc.done, sc.current + [s[n - 1]])
  }

  /** The words of `s`: the pieces between single spaces. Consecutive, leading
      or trailing spaces give empty words; the empty string is one empty word. */
  function Split(s: string): (words: seq<string>)
    ensures |words| >= 1
    ensures forall i :: 0 <= i < |words| ==> ' ' !in words[i]
  {
    var sc := ScanUpTo(s, |s|);
    sc.done + [sc.current]
  }

  /** Two strings that agree on their first `n` characters scan alike so far. */
  lemma {:induction false} ScanUpToPrefix(s: string, t: string, n: nat)
    requires n <= |s| && n <= |t|
    requires forall i :: 0 <= i < n ==> s[i] == t[i]
    ensures ScanUpTo(s, n) == ScanUpTo(t, n)
  {
    if n > 0 {
      ScanUpToPrefix(s, t, n - 1);
    }
  }

  /** Reading characters other than spaces extends the current word. */
  lemma {:induction false} ScanWord(s: string, w: string, k: nat)
    requires k <= |w| && ' ' !in w
    ensures var sc := ScanUpTo(s, |s|);
      ScanUpTo(s + w, |s| + k) == Scan(sc.done, sc.current + w[..k])
  {
    var sc := ScanUpTo(s, |s|);
    if k == 0 {
      ScanUpToPrefix(s, s + w, |s|);
      assert sc.current + w[..0] == sc.current;
    } else {
      ScanWord(s, w, k - 1);
      var c := (s + w)[|s| + k - 1];
      assert c == w[k - 1];
      assert c != ' ' by {
        assert w[k - 1] in w;
      }
      assert w[..k] == w[..k - 1] + [c];
    }
  }

  /** Reading a space ends the current word. */
  lemma ScanSpace(s: string)
    ensures var sc := ScanUpTo(s, |s|);
      ScanUpTo(s + " ", |s| + 1) == Scan(sc.done + [sc.current], "")
  {
    ScanUpToPrefix(s, s + " ", |s|);
  }

  /** The first `n` words joined by single spaces. */
  function JoinUpTo(words: seq<string>, n: nat): string
    requires 1 <= n <= |words|
  {
    if n == 1 then words[0] else JoinUpTo(words, n - 1) + " " + words[n - 1]
  }

  /** The words separated by single spaces: the inverse of `Split`. */
  function Join(words: seq<string>): string
    requires |words| >= 1
  {
    JoinUpTo(words, |words|)
  }

  lemma {:induction false} JoinUpToPrefix(s: seq<string>, t: seq<string>, n: nat)
    requires 1 <= n <= |s| && n <= |t|
    requires forall i :: 0 <= i < n ==> s[i] == t[i]
    ensures JoinUpTo(s, n) == JoinUpTo(t, n)
  {
    if n > 1 {
      JoinUpToPrefix(s, t, n - 1);
    }
  }

  lemma JoinSnoc(words: seq<string>, w: string)
    requires |words| >= 1
    ensures Join(words + [w]) == Join(words) + " " + w
  {
    JoinUpToPrefix(words, words + [w], |words|);
  }

  lemma JoinExtendLast(init: seq<string>, last: string, c: char)
    ensures Join(init + [last + [c]]) == Join(init + [last]) + [c]
  {
    if init != [] {
      JoinUpToPrefix(init + [last], init + [last + [c]], |init|);
    }
  }

  /** The words scanned so far join back to the characters read. */
  lemma {:induction false} JoinScan(s: string, n: nat)
    requires n <= |s|
    ensures var sc := ScanUpTo(s, n); Join(sc.done + [sc.current]) == s[..n]
  {
    if n > 0 {
      JoinScan(s, n - 1);
      var sc := ScanUpTo(s, n - 1);
      assert s[..n] == s[..n - 1] + [s[n - 1]];
      if s[n - 1] == ' ' {
        JoinSnoc(sc.done + [sc.current], "");
      } else {
        JoinExtendLast(sc.done, sc.current, s[n - 1]);
      }
    }
  }

  /** Joining the words of `s` gives back `s`. */
  lemma JoinSplit(s: string)
    ensures Join(Split(s)) == s
  {
    JoinScan(s, |s|);
    assert s[..|s|] == s;
  }

  /** A space and then a word without spaces: the current word is done and
      the new word is being read. */
  lemma ScanWordAfterSpace(prev: string, w: string)
    requires ' ' !in w
    ensures var sc := ScanUpTo(prev, |prev|);
      var s := prev + " " + w;
      ScanUpTo(s, |s|) == Scan(sc.done + [sc.current], w)
  {
    var sc := ScanUpTo(prev, |prev|);
    var spaced := prev + " ";
    ScanSpace(prev);
    assert ScanUpTo(spaced, |spaced|) == Scan(sc.done + [sc.current], "");
    ScanWord(spaced, w, |w|);
    assert |spaced| + |w| == |spaced + w|;
    assert w[..|w|] == w;
    assert "" + w == w;
  }

  /** Scanning words joined by spaces ends with the last word being read,
      every earlier word done. */
  lemma {:induction false} ScanJoin(words: seq<string>, n: nat)
    requires 1 <= n <= |words|
    requires forall i :: 0 <= i < |words| ==> ' ' !in words[i]
    ensures var s := JoinUpTo(words, n);
      var sc := ScanUpTo(s, |s|);
      && sc.current == words[n - 1] && |sc.done| == n - 1
      && forall i :: 0 <= i < n - 1 ==> sc.done[i] == words[i]
  {
    var w := words[n - 1];
    assert ' ' !in w;
    if n == 1 {
      ScanWord("", w, |w|);
      assert "" + w == w && w[..|w|] == w;
    } else {
      ScanJoin(words, n - 1);
      var prev := JoinUpTo(words, n - 1);
      var before := ScanUpTo(prev, |prev|);
      ScanWordAfterSpace(prev, w);
      var sc := ScanUpTo(JoinUpTo(words, n), |JoinUpTo(words, n)|);
      assert sc == Scan(before.done + [before.current], w);
      forall i | 0 <= i < n - 1
        ensures sc.done[i] == words[i]
      {
        if i < n - 2 {
          assert sc.done[i] == before.done[i];
        }
      }
    }
  }

  /** Splitting words joined by single spaces gives back the words, when no
      word holds a space. */
  lemma SplitJoin(words: seq<string>)
    requires |words| >= 1
    requires forall i :: 0 <= i < |words| ==> ' ' !in words[i]
    ensures Split(Join(words)) == words
  {
    ScanJoin(words, |words|);
    var s := Join(words);
    var sc := ScanUpTo(s, |s|);
    assert forall i :: 0 <= i < |words| ==> (sc.done + [sc.current])[i] == words[i];
  }

  // ---------------------------------------------------------------------
  // Lines as wrapText builds them

  /** A line as wrapText accumulates it: every word followed by one space. */
  function Spaced(words: seq<string>): string
  {
    SpacedUpTo(words, |words|)
  }

  /** The first `n` words, each followed by one space. */
  function SpacedUpTo(words: seq<string>, n: nat): string
    requires n <= |words|
  {
    if n == 0 then "" else SpacedUpTo(words, n - 1) + words[n - 1] + " "
  }

  lemma {:induction false} SpacedUpToPrefix(s: seq<string>, t: seq<string>, n: nat)
    requires n <= |s| && n <= |t|
    requires forall i :: 0 <= i < n ==> s[i] == t[i]
    ensures SpacedUpTo(s, n) == SpacedUpTo(t, n)
  {
    if n > 0 {
      SpacedUpToPrefix(s, t, n - 1);
    }
  }

  lemma SpacedSnoc(words: seq<string>, word: string)
    ensures Spaced(words + [word]) == Spaced(words) + word + " "
  {
    SpacedUpToPrefix(words, words + [word], |words|);
  }

  lemma {:induction false} SpacedAppend(a: seq<string>, b: seq<string>)
    ensures Spaced(a + b) == Spaced(a) + Spaced(b)
  {
    if b != [] {
      var b' := b[..|b| - 1];
      SpacedAppend(a, b');
      assert a + b == (a + b') + [b[|b| - 1]];
      SpacedSnoc(a + b', b[|b| - 1]);
      SpacedSnoc(b', b[|b| - 1]);
      assert b == b' + [b[|b| - 1]];
    } else {
      assert a + b == a;
    }
  }

  /** Every group of words rendered as its line. */
  function SpacedAll(groups: seq<seq<string>>): (lines: seq<string>)
    ensures |lines| == |groups|
  {
    SpacedAllUpTo(groups, |groups|)
  }

  /** The first `n` groups rendered as lines. */
  function SpacedAllUpTo(groups: seq<seq<string>>, n: nat): (lines: seq<string>)
    requires n <= |groups|
    ensures |lines| == n
  {
    if n == 0 then [] else SpacedAllUpTo(groups, n - 1) + [Spaced(groups[n - 1])]
  }

  lemma {:induction false} SpacedAllUpToPrefix(s: seq<seq<string>>, t: seq<seq<string>>, n: nat)
    requires n <= |s| && n <= |t|
    requires forall i :: 0 <= i < n ==> s[i] == t[i]
    ensures SpacedAllUpTo(s, n) == SpacedAllUpTo(t, n)
  {
    if n > 0 {
      SpacedAllUpToPrefix(s, t, n - 1);
    }
  }

  lemma SpacedAllSnoc(groups: seq<seq<string>>, group: seq<string>)
    ensures SpacedAll(groups + [group]) == SpacedAll(groups) + [Spaced(group)]
  {
    SpacedAllUpToPrefix(groups, groups + [group], |groups|);
  }

  /** Line `i` of the first `n` is group `i` rendered. */
  lemma {:induction false} SpacedAllUpToAt(groups: seq<seq<string>>, n: nat)
    requires n <= |groups|
    ensures forall i :: 0 <= i < n ==> SpacedAllUpTo(groups, n)[i] == Spaced(groups[i])
  {
    if n > 0 {
      SpacedAllUpToAt(groups, n - 1);
    }
  }

  /** Line `i` is group `i` rendered. */
  lemma SpacedAllAt(groups: seq<seq<string>>)
    ensures forall i :: 0 <= i < |groups| ==> SpacedAll(groups)[i] == Spaced(groups[i])
  {
    SpacedAllUpToAt(groups, |groups|);
  }

  /** Rendering the groups line by line gives the same text as rendering all
      their words in one line. */
  lemma {:induction false} FlattenSpacedAll(groups: seq<seq<string>>)
    ensures Flatten(SpacedAll(groups)) == Spaced(Flatten(groups))
  {
    if groups != [] {
      var init := groups[..|groups| - 1];
      var last := groups[|groups| - 1];
      assert groups == init + [last];
      FlattenSpacedAll(init);
      SpacedAllSnoc(init, last);
      FlattenSnoc(SpacedAll(init), Spaced(last));
      FlattenSnoc(init, last);
      SpacedAppend(Flatten(init), last);
    }
  }

  // ---------------------------------------------------------------------
  // The greedy line breaker

  /** The state of the word loop: the lines already pushed (as their groups
      of words) and the words on the current line. */
  datatype Wrap = Wrap(closed: seq<seq<string>>, open: seq<string>)

  /** The word loop after its first `n` iterations. A word is moved to a new
      line when the current line with it would be wider than `maxWidth`,
      unless it is the very first word. */
  function Greedy(words: seq<string>, n: nat, maxWidth: real, width: string -> real): Wrap
    requires n <= |words|
  {
    if n == 0 then Wrap([], [])
    else
      var w := Greedy(words, n - 1, maxWidth, width);
      var testLine := Spaced(w.open) + words[n - 1] + " ";
      if width(testLine) > maxWidth && n - 1 > 0 then
        Wrap(w.closed + [w.open], [words[n - 1]])
      else
        Wrap(w.closed, w.open + [words[n - 1]])
  }

  /** The words of each output line, the last (always flushed) line included. */
  function WrapGroups(words: seq<string>, maxWidth: real, width: string -> real): seq<seq<string>>
  {
    var w := Greedy(words, |words|, maxWidth, width);
    w.closed + [w.open]
  }

  /** The lines wrapText draws, before trimming. */
  function WrapLines(words: seq<string>, maxWidth: real, width: string -> real): seq<string>
  {
    SpacedAll(WrapGroups(words, maxWidth, width))
  }

  /** A line holds one word at most, or it fits in `maxWidth`. */
  predicate FitsOrSingle(group: seq<string>, maxWidth: real, width: string -> real)
  {
    |group| <= 1 || width(Spaced(group)) <= maxWidth
  }

  /** Line `i` would overflow with the first word of line `i + 1` added. */
  predicate OverfullAt(groups: seq<seq<string>>, i: nat, maxWidth: real, width: string -> real)
    requires i + 1 < |groups|
  {
    groups[i + 1] != [] && width(Spaced(groups[i]) + groups[i + 1][0] + " ") > maxWidth
  }

  /** The loop's current line is empty only before the first word, and no
      pushed line is empty. */
  lemma {:induction false} GreedyShape(words: seq<string>, n: nat, maxWidth: real, width: string -> real)
    requires n <= |words|
    ensures var w := Greedy(words, n, maxWidth, width);
      && (n == 0 ==> w.closed == [] && w.open == [])
      && (n > 0 ==> w.open != [] && forall i :: 0 <= i < |w.closed| ==> w.closed[i] != [])
  {
    if n > 0 {
      GreedyShape(words, n - 1, maxWidth, width);
      var w := Greedy(words, n - 1, maxWidth, width);
      var x := words[n - 1];
      var w' := Greedy(words, n, maxWidth, width);
      if width(Spaced(w.open) + x + " ") > maxWidth && n - 1 > 0 {
        assert w' == Wrap(w.closed + [w.open], [x]);
        forall i | 0 <= i < |w'.closed|
          ensures w'.closed[i] != []
        {
          if i < |w.closed| {
            assert w'.closed[i] == w.closed[i];
          }
        }
      } else {
        assert w' == Wrap(w.closed, w.open + [x]);
      }
    }
  }

  /** Starting a new line with `x` appends `x` to the words. */
  lemma FlattenNewLine(closed: seq<seq<string>>, open: seq<string>, x: string)
    ensures Flatten((closed + [open]) + [[x]]) == Flatten(closed + [open]) + [x]
  {
    FlattenSnoc(closed + [open], [x]);
  }

  /** Extending the current line with `x` appends `x` to the words. */
  lemma FlattenSameLine(closed: seq<seq<string>>, open: seq<string>, x: string)
    ensures Flatten(closed + [open + [x]]) == Flatten(closed + [open]) + [x]
  {
    FlattenSnoc(closed, open);
    FlattenSnoc(closed, open + [x]);
    assert Flatten(closed) + (open + [x]) == (Flatten(closed) + open) + [x];
  }

  /** The loop keeps every word seen so far, in order. */
  lemma {:induction false} GreedyKeepsWords(words: seq<string>, n: nat, maxWidth: real, width: string -> real)
    requires n <= |words|
    ensures var w := Greedy(words, n, maxWidth, width);
      Flatten(w.closed + [w.open]) == words[..n]
  {
    if n == 0 {
      assert Greedy(words, 0, maxWidth, width) == Wrap([], []);
      assert Flatten([[]]) == Flatten<string>([]) + [];
    } else {
      GreedyKeepsWords(words, n - 1, maxWidth, width);
      var w := Greedy(words, n - 1, maxWidth, width);
      var x := words[n - 1];
      var w' := Greedy(words, n, maxWidth, width);
      assert words[..n] == words[..n - 1] + [x];
      if width(Spaced(w.open) + x + " ") > maxWidth && n - 1 > 0 {
        assert w'.closed + [w'.open] == (w.closed + [w.open]) + [[x]];
        FlattenNewLine(w.closed, w.open, x);
      } else {
        assert w'.closed + [w'.open] == w.closed + [w.open + [x]];
        FlattenSameLine(w.closed, w.open, x);
      }
    }
  }

  /** Every line the loop has formed fits or holds a single word. */
  lemma {:induction false} GreedyFits(words: seq<string>, n: nat, maxWidth: real, width: string -> real)
    requires n <= |words|
    ensures var w := Greedy(words, n, maxWidth, width);
      && FitsOrSingle(w.open, maxWidth, width)
      && forall i :: 0 <= i < |w.closed| ==> FitsOrSingle(w.closed[i], maxWidth, width)
  {
    if n > 0 {
      GreedyFits(words, n - 1, maxWidth, width);
      GreedyShape(words, n - 1, maxWidth, width);
      var w := Greedy(words, n - 1, maxWidth, width);
      var x := words[n - 1];
      var w' := Greedy(words, n, maxWidth, width);
      if width(Spaced(w.open) + x + " ") > maxWidth && n - 1 > 0 {
        assert w' == Wrap(w.closed + [w.open], [x]);
        forall i | 0 <= i < |w'.closed|
          ensures FitsOrSingle(w'.closed[i], maxWidth, width)
        {
          if i < |w.closed| {
            assert w'.closed[i] == w.closed[i];
          }
        }
      } else {
        assert w' == Wrap(w.closed, w.open + [x]);
        if n - 1 == 0 {
          assert |w'.open| == 1;
        } else {
          SpacedSnoc(w.open, x);
          assert width(Spaced(w'.open)) <= maxWidth;
        }
      }
    }
  }

  /** Every line the loop has closed overflowed with the next word. */
  lemma {:induction false} GreedyMaximal(words: seq<string>, n: nat, maxWidth: real, width: string -> real)
    requires n <= |words|
    ensures var w := Greedy(words, n, maxWidth, width);
      forall i :: 0 <= i < |w.closed| ==> OverfullAt(w.closed + [w.open], i, maxWidth, width)
  {
    if n > 0 {
      GreedyMaximal(words, n - 1, maxWidth, width);
      GreedyShape(words, n - 1, maxWidth, width);
      var w := Greedy(words, n - 1, maxWidth, width);
      var groups := w.closed + [w.open];
      var x := words[n - 1];
      var w' := Greedy(words, n, maxWidth, width);
      var groups' := w'.closed + [w'.open];
      forall i | 0 <= i < |w'.closed|
        ensures OverfullAt(groups', i, maxWidth, width)
      {
        if i < |w.closed| {
          assert OverfullAt(groups, i, maxWidth, width);
          assert groups'[i] == groups[i];
          assert groups'[i + 1][0] == groups[i + 1][0];
        }
      }
    }
  }

  /** Wrapping keeps every word, in order: the groups concatenate to the
      words and the lines to every word followed by one space. */
  lemma WrapKeepsWords(words: seq<string>, maxWidth: real, width: string -> real)
    ensures |WrapLines(words, maxWidth, width)| >= 1
    ensures Flatten(WrapGroups(words, maxWidth, width)) == words
    ensures Flatten(WrapLines(words, maxWidth, width)) == Spaced(words)
  {
    GreedyKeepsWords(words, |words|, maxWidth, width);
    assert words[..|words|] == words;
    FlattenSpacedAll(WrapGroups(words, maxWidth, width));
  }

  /** Every line fits in `maxWidth` or holds a single word (a word too wide
      for any line); with at least one word, no line is empty. */
  lemma WrapLinesFit(words: seq<string>, maxWidth: real, width: string -> real)
    ensures var groups := WrapGroups(words, maxWidth, width);
      forall i :: 0 <= i < |groups| ==>
        (|words| > 0 ==> groups[i] != []) &&
        (|groups[i]| <= 1 || width(WrapLines(words, maxWidth, width)[i]) <= maxWidth)
  {
    GreedyShape(words, |words|, maxWidth, width);
    GreedyFits(words, |words|, maxWidth, width);
    SpacedAllAt(WrapGroups(words, maxWidth, width));
    var w := Greedy(words, |words|, maxWidth, width);
    var groups := w.closed + [w.open];
    forall i | 0 <= i < |groups|
      ensures FitsOrSingle(groups[i], maxWidth, width)
    {
      if i < |w.closed| {
        assert groups[i] == w.closed[i];
      }
    }
  }

  /** The breaking is greedy: every line but the last would be too wide with
      the first word of the next line appended. */
  lemma WrapLinesGreedy(words: seq<string>, maxWidth: real, width: string -> real)
    ensures forall i :: 0 <= i < |WrapGroups(words, maxWidth, width)| - 1 ==>
      OverfullAt(WrapGroups(words, maxWidth, width), i, maxWidth, width)
  {
    GreedyMaximal(words, |words|, maxWidth, width);
    assert var w := Greedy(words, |words|, maxWidth, width);
      forall i :: 0 <= i < |w.closed| ==> OverfullAt(w.closed + [w.open], i, maxWidth, width);
  }

  lemma SpacedSingle(word: string)
    ensures Spaced([word]) == word + " "
  {
    assert SpacedUpTo([word], 0) == "";
  }

  /** An iteration of the word loop that starts a new line. */
  lemma BreakStepNewLine(words: seq<string>, n: nat, maxWidth: real, width: string -> real)
    requires n < |words|
    requires var w := Greedy(words, n, maxWidth, width);
      width(Spaced(w.open) + words[n] + " ") > maxWidth && n > 0
    ensures var w := Greedy(words, n, maxWidth, width);
      var w' := Greedy(words, n + 1, maxWidth, width);
      SpacedAll(w'.closed) == SpacedAll(w.closed) + [Spaced(w.open)] && Spaced(w'.open) == words[n] + " "
  {
    var w := Greedy(words, n, maxWidth, width);
    assert Greedy(words, n + 1, maxWidth, width) == Wrap(w.closed + [w.open], [words[n]]);
    SpacedAllSnoc(w.closed, w.open);
    SpacedSingle(words[n]);
  }

  /** An iteration of the word loop that extends the current line. */
  lemma BreakStepSameLine(words: seq<string>, n: nat, maxWidth: real, width: string -> real)
    requires n < |words|
    requires var w := Greedy(words, n, maxWidth, width);
      !(width(Spaced(w.open) + words[n] + " ") > maxWidth && n > 0)
    ensures var w := Greedy(words, n, maxWidth, width);
      var w' := Greedy(words, n + 1, maxWidth, width);
      SpacedAll(w'.closed) == SpacedAll(w.closed) && Spaced(w'.open) == Spaced(w.open) + words[n] + " "
  {
    var w := Greedy(words, n, maxWidth, width);
    assert Greedy(words, n + 1, maxWidth, width) == Wrap(w.closed, w.open + [words[n]]);
    SpacedSnoc(w.open, words[n]);
  }

  /** The first loop of wrapText. */
  method BreakLines(words: seq<string>, maxWidth: real, width: string -> real) returns (lines: seq<string>)
    ensures lines == WrapLines(words, maxWidth, width)
  {
    var line := "";
    lines := [];
    for n := 0 to |words|
      invariant lines == SpacedAll(Greedy(words, n, maxWidth, width).closed)
      invariant line == Spaced(Greedy(words, n, maxWidth, width).open)
    {
      var testLine := line + words[n] + " ";
      if width(testLine) > maxWidth && n > 0 {
        BreakStepNewLine(words, n, maxWidth, width);
        lines := lines + [line];
        line := words[n] + " ";
      } else {
        BreakStepSameLine(words, n, maxWidth, width);
        line := testLine;
      }
    }
    ghost var w := Greedy(words, |words|, maxWidth, width);
    SpacedAllSnoc(w.closed, w.open);
    lines := lines + [line];
  }

  // ---------------------------------------------------------------------
  // Trimming, as String.prototype.trim does

  /** ECMAScript white space and line terminators. */
  predicate IsWhitespace(c: char)
  {
    || c == '\t' || c == '\n' || c == '\U{000B}' || c == '\U{000C}' || c == '\r'
    || c == ' ' || c == '\U{00A0}' || c == '\U{1680}' || ('\U{2000}' <= c <= '\U{200A}')
    || c == '\U{2028}' || c == '\U{2029}' || c == '\U{202F}' || c == '\U{205F}'
    || c == '\U{3000}' || c == '\U{FEFF}'
  }

  predicate AllWhitespace(s: string)
  {
    forall i :: 0 <= i < |s| ==> IsWhitespace(s[i])
  }

  /** The first position at or after `i` that does not hold white space, or `|s|`. */
  function SkipStart(s: string, i: nat): (j: nat)
    requires i <= |s|
    ensures i <= j <= |s|
    decreases |s| - i
  {
    if i < |s| && IsWhitespace(s[i]) then SkipStart(s, i + 1) else i
  }

  /** The position just after the last character before `j` that is not
      white space, but not below `lo`. */
  function SkipEnd(s: string, lo: nat, j: nat): (e: nat)
    requires lo <= j <= |s|
    ensures lo <= e <= j
  {
    if j > lo && IsWhitespace(s[j - 1]) then SkipEnd(s, lo, j - 1) else j
  }

  /** The characters of `s` from position `a` up to `b`, in order. */
  function Chars(s: string, a: nat, b: nat): (r: string)
    requires a <= b <= |s|
    ensures |r| == b - a
    decreases b - a
  {
    if a == b then "" else Chars(s, a, b - 1) + [s[b - 1]]
  }

  /** `s` without its leading and trailing white space. */
  function Trim(s: string): string
  {
    var start := SkipStart(s, 0);
    Chars(s, start, SkipEnd(s, start, |s|))
  }

  lemma {:induction false} SkipStartSpec(s: string, i: nat)
    requires i <= |s|
    ensures var j := SkipStart(s, i);
      && (forall k :: i <= k < j ==> IsWhitespace(s[k]))
      && (j < |s| ==> !IsWhitespace(s[j]))
    decreases |s| - i
  {
    if i < |s| && IsWhitespace(s[i]) {
      SkipStartSpec(s, i + 1);
    }
  }

  lemma {:induction false} SkipEndSpec(s: string, lo: nat, j: nat)
    requires lo <= j <= |s|
    ensures var e := SkipEnd(s, lo, j);
      && (forall k :: e <= k < j ==> IsWhitespace(s[k]))
      && (e > lo ==> !IsWhitespace(s[e - 1]))
  {
    if j > lo && IsWhitespace(s[j - 1]) {
      SkipEndSpec(s, lo, j - 1);
    }
  }

  lemma {:induction false} CharsSlice(s: string, a: nat, b: nat)
    requires a <= b <= |s|
    ensures Chars(s, a, b) == s[a..b]
    decreases b - a
  {
    if a < b {
      CharsSlice(s, a, b - 1);
      assert s[a..b] == s[a..b - 1] + [s[b - 1]];
    }
  }

  /** Trimming removes exactly the white space at both ends: the result is the
      slice of `s` from `start` to `end`, everything around it is white
      space and, unless empty, it neither starts nor ends with white space. */
  lemma TrimSpec(s: string)
    ensures var start := SkipStart(s, 0);
      var end := SkipEnd(s, start, |s|);
      var r := Trim(s);
      && r == s[start..end]
      && AllWhitespace(s[..start]) && AllWhitespace(s[end..])
      && (r == [] || (!IsWhitespace(r[0]) && !IsWhitespace(r[|r| - 1])))
  {
    var start := SkipStart(s, 0);
    var end := SkipEnd(s, start, |s|);
    SkipStartSpec(s, 0);
    SkipEndSpec(s, start, |s|);
    CharsSlice(s, start, end);
    var r := Trim(s);
    if r != [] {
      assert r[0] == s[start];
      assert r[|r| - 1] == s[end - 1];
    }
  }

  // ---------------------------------------------------------------------
  // Placing the lines

  /** `k` line heights, built up one line at a time as the drawing loop
      advances its baseline. */
  function Offset(k: nat, lineHeight: real): real
  {
    if k == 0 then 0.0 else Offset(k - 1, lineHeight) + lineHeight
  }

  lemma {:induction false} OffsetIsProduct(k: nat, lineHeight: real)
    ensures Offset(k, lineHeight) == (k as real) * lineHeight
  {
    if k > 0 {
      OffsetIsProduct(k - 1, lineHeight);
    }
  }

  /** `(count - 1) * lineHeight`: the distance from the first baseline to the last. */
  function BlockHeight(count: nat, lineHeight: real): real
  {
    if count == 0 then -lineHeight else Offset(count - 1, lineHeight)
  }

  lemma BlockHeightIsProduct(count: nat, lineHeight: real)
    ensures BlockHeight(count, lineHeight) == (count as real - 1.0) * lineHeight
  {
    if count > 0 {
      OffsetIsProduct(count - 1, lineHeight);
    }
  }

  /** The baseline of line `i` of `count` lines centred on `startY`. */
  function LineY(count: nat, i: nat, startY: real, lineHeight: real): real
  {
    startY - BlockHeight(count, lineHeight) / 2.0 + Offset(i, lineHeight)
  }

  /** Line `i` of `count` is drawn at `startY - (count - 1) * lineHeight / 2
      + i * lineHeight`. */
  lemma LineYFormula(count: nat, i: nat, startY: real, lineHeight: real)
    ensures LineY(count, i, startY, lineHeight)
         == startY - (count as real - 1.0) * lineHeight / 2.0 + (i as real) * lineHeight
  {
    BlockHeightIsProduct(count, lineHeight);
    OffsetIsProduct(i, lineHeight);
  }

  /** The lines are evenly spaced and the first and last are symmetric about
      the centre line. */
  lemma LinesCentred(count: nat, startY: real, lineHeight: real)
    requires count >= 1
    ensures LineY(count, 0, startY, lineHeight) + LineY(count, count - 1, startY, lineHeight) == 2.0 * startY
    ensures forall i: nat :: LineY(count, i + 1, startY, lineHeight) - LineY(count, i, startY, lineHeight) == lineHeight
  {
  }

  /** The `fillText` calls for the first `n` of `lines`: each line trimmed,
      at `startX` and its centred baseline. */
  function TextCommandsUpTo(lines: seq<string>, n: nat, startX: real, startY: real, lineHeight: real): seq<Command>
    requires n <= |lines|
  {
    if n == 0 then []
    else TextCommandsUpTo(lines, n - 1, startX, startY, lineHeight)
         + [FillText(Trim(lines[n - 1]), startX, LineY(|lines|, n - 1, startY, lineHeight))]
  }

  /** The `fillText` calls for all the lines. */
  function TextCommands(lines: seq<string>, startX: real, startY: real, lineHeight: real): seq<Command>
  {
    TextCommandsUpTo(lines, |lines|, startX, startY, lineHeight)
  }

  /** Line `i` is drawn trimmed, at `startX` and at baseline `LineY`. */
  lemma {:induction false} TextCommandsAt(lines: seq<string>, n: nat, startX: real, startY: real, lineHeight: real)
    requires n <= |lines|
    ensures var cmds := TextCommandsUpTo(lines, n, startX, startY, lineHeight);
      |cmds| == n &&
      forall i :: 0 <= i < n ==> cmds[i] == FillText(Trim(lines[i]), startX, LineY(|lines|, i, startY, lineHeight))
  {
    if n > 0 {
      TextCommandsAt(lines, n - 1, startX, startY, lineHeight);
    }
  }

  /** The second loop of wrapText. */
  method PlaceLines(lines: seq<string>, startX: real, startY: real, lineHeight: real) returns (draws: seq<Command>)
    ensures draws == TextCommands(lines, startX, startY, lineHeight)
  {
    var totalTextHeight := (|lines| as real - 1.0) * lineHeight;
    BlockHeightIsProduct(|lines|, lineHeight);
    var currentY := startY - totalTextHeight / 2.0;
    draws := [];
    for i := 0 to |lines|
      invariant currentY == LineY(|lines|, i, startY, lineHeight)
      invariant draws == TextCommandsUpTo(lines, i, startX, startY, lineHeight)
    {
      draws := draws + [FillText(Trim(lines[i]), startX, currentY)];
      currentY := currentY + lineHeight;
    }
  }

  /** wrapText: split, break greedily, draw each line centred on `startY`. */
  method WrapText(text: string, startX: real, startY: real, maxWidth: real, lineHeight: real, width: string -> real)
    returns (draws: seq<Command>)
    ensures draws == TextCommands(WrapLines(Split(text), maxWidth, width), startX, startY, lineHeight)
  {
    var words := Split(text);
    var lines := BreakLines(words, maxWidth, width);
    draws := PlaceLines(lines, startX, startY, lineHeight);
  }
}
