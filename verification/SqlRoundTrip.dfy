/** Laws of the splitter over every input: it loses only whitespace, and splitting what it
    returned, one by one or joined again, gives it back. */
module SqlRoundTrip {
  import opened Options
  import opened Text
  import opened SqlLexer
  import opened SqlSplitter

  // ----- Nothing but whitespace is dropped -----

  function Concat(parts: seq<string>): string {
    if parts == [] then [] else parts[0] + Concat(parts[1..])
  }

  function NonSpaces(s: string): string {
    if s == [] then [] else (if IsSpace(s[0]) then [] else [s[0]]) + NonSpaces(s[1..])
  }

  lemma {:induction false} NonSpacesAppend(a: string, b: string)
    ensures NonSpaces(a + b) == NonSpaces(a) + NonSpaces(b)
  {
    if a == [] {
      assert a + b == b;
    } else {
      assert (a + b)[1..] == a[1..] + b;
      NonSpacesAppend(a[1..], b);
    }
  }

  lemma {:induction false} SlicesTile(pre: string, s: string)
    ensures Concat(Slices(pre, s)) == pre + s
    decreases |s|
  {
    hide ElementLength;
    if s == [] {
      assert Concat([pre]) == pre + Concat([]);
    } else if s[0] == ';' {
      SlicesTile([], s[1..]);
      assert Slices(pre, s)[1..] == Slices([], s[1..]);
      assert s == [';'] + s[1..];
    } else {
      var n := ElementLength(s);
      SlicesTile(pre + s[..n], s[n..]);
      assert s == s[..n] + s[n..];
    }
  }

  lemma {:induction false} TrimStartKeeps(s: string)
    ensures NonSpaces(TrimStart(s)) == NonSpaces(s)
  {
    if s != [] && IsSpace(s[0]) {
      TrimStartKeeps(s[1..]);
    }
  }

  lemma {:induction false} TrimEndKeeps(s: string)
    ensures NonSpaces(TrimEnd(s)) == NonSpaces(s)
  {
    if s != [] && IsSpace(s[|s| - 1]) {
      var t := s[..|s| - 1];
      TrimEndKeeps(t);
      assert s == t + [s[|s| - 1]];
      NonSpacesAppend(t, [s[|s| - 1]]);
    }
  }

  lemma {:induction false} KeepKeeps(slices: seq<string>)
    ensures NonSpaces(Concat(Keep(slices))) == NonSpaces(Concat(slices))
  {
    if slices != [] {
      var t := Trim(slices[0]);
      KeepKeeps(slices[1..]);
      TrimStartKeeps(slices[0]);
      TrimEndKeeps(TrimStart(slices[0]));
      NonSpacesAppend(slices[0], Concat(slices[1..]));
      NonSpacesAppend(t, Concat(Keep(slices[1..])));
      if t != [] {
        assert Keep(slices)[1..] == Keep(slices[1..]);
      } else {
        assert Keep(slices) == Keep(slices[1..]);
      }
    }
  }

  /** The slices tile the input, and the statements hold its non-whitespace text in order. */
  lemma SplitLosesOnlyWhitespace(contents: string)
    ensures Concat(Slices([], contents)) == contents
    ensures NonSpaces(Concat(Statements(contents))) == NonSpaces(contents)
  {
    SlicesTile([], contents);
    KeepKeeps(Slices([], contents));
    assert [] + contents == contents;
  }

  // ----- Lookahead never crosses a cut -----

  /** `v` begins with whitespace, or `a` ends with a semicolon: no lookahead of the scanner
      that starts in `a` succeeds by reading into `v`. */
  predicate Barrier(a: string, v: string) {
    a != [] && (v == [] || IsSpace(v[0]) || a[|a| - 1] == ';')
  }

  lemma DelimiterChar(d: string, k: nat)
    requires IsDelimiter(d) && k < |d|
    ensures d[k] == '$' || IsTagChar(d[k])
  {
    if 0 < k < |d| - 1 {
      assert d[k] == d[1..|d| - 1][k - 1];
    }
  }

  lemma PrefixStopsAtBarrier(d: string, a: string, v: string)
    requires Barrier(a, v) && IsDelimiter(d)
    ensures d <= a + v <==> d <= a
  {
    if |d| > |a| {
      DelimiterChar(d, |a| - 1);
      DelimiterChar(d, |a|);
      assert (a + v)[|a| - 1] == a[|a| - 1] && (v != [] ==> (a + v)[|a|] == v[0]);
    }
  }

  lemma DelimiterStopsAtBarrier(a: string, v: string)
    requires Barrier(a, v)
    ensures DollarDelimiter(a + v) == DollarDelimiter(a)
  {
    hide DollarDelimiter;
    forall d
      ensures DollarDelimiter(a + v) == Some(d) <==> DollarDelimiter(a) == Some(d)
    {
      DelimiterExact(a + v, d);
      DelimiterExact(a, d);
      if IsDelimiter(d) {
        PrefixStopsAtBarrier(d, a, v);
      }
    }
    var long, short := DollarDelimiter(a + v), DollarDelimiter(a);
    assert long.Some? ==> short == Some(long.value);
    assert short.Some? ==> long == Some(short.value);
  }

  /** The key step: at a barrier, the scanner reads the same token with or without `v`. */
  lemma StepStopsAtBarrier(state: ScanState, a: string, v: string)
    requires ValidState(state) && Barrier(a, v)
    ensures NextStep(state, a + v) == NextStep(state, a)
  {
    DelimiterStopsAtBarrier(a, v);
    if state.DollarQuoted? {
      PrefixStopsAtBarrier(state.delimiter, a, v);
    }
  }

  // ----- Scanning a slice on its own -----

  lemma Cancel(p: string, x: string, y: string)
    requires p + x == p + y
    ensures x == y
  {
    assert x == (p + x)[|p|..] && y == (p + y)[|p|..];
  }

  /** One step of the scanner, with the text before it kept in front of the first slice. */
  lemma ScanUnfold(state: ScanState, s: string)
    requires ValidState(state) && s != []
    ensures var step := NextStep(state, s);
            var w := step.width;
            if step.cut then Scan(state, [], s) == [s[..w]] + Scan(Normal, [], s[w..])
            else
              var r := Scan(step.next, [], s[w..]);
              Scan(state, [], s) == [s[..w] + r[0]] + r[1..]
  {
    hide NextStep;
    var step := NextStep(state, s);
    assert [] + s[..step.width] == s[..step.width];
    if !step.cut {
      ScanPre(step.next, s[..step.width], s[step.width..]);
    }
  }

  /** Text read before the current position stays in front of the first slice. */
  lemma {:induction false} ScanPre(state: ScanState, pre: string, s: string)
    requires ValidState(state)
    ensures var r := Scan(state, [], s);
            Scan(state, pre, s) == [pre + r[0]] + r[1..]
    decreases |s|
  {
    hide NextStep;
    if s == [] {
      assert Scan(state, pre, s) == [pre] && pre + [] == pre;
    } else {
      var step := NextStep(state, s);
      var w := step.width;
      assert [] + s[..w] == s[..w];
      if !step.cut {
        ScanPre(step.next, pre + s[..w], s[w..]);
        ScanPre(step.next, s[..w], s[w..]);
        var r := Scan(step.next, [], s[w..]);
        assert pre + s[..w] + r[0] == pre + (s[..w] + r[0]);
      }
    }
  }

  /** A slice that ends at a cut: scanned alone it is one whole slice. */
  predicate Closed(x: string) {
    x != [] && x[|x| - 1] == ';' && Scan(Normal, [], x) == [x, []]
  }

  /** A slice with no cut in it. */
  predicate Open(x: string) {
    Scan(Normal, [], x) == [x]
  }

  predicate OneSlice(state: ScanState, x: string)
    requires ValidState(state)
  {
    x != [] && x[|x| - 1] == ';' && Scan(state, [], x) == [x, []]
  }

  lemma {:induction false} FirstSlice(state: ScanState, s: string)
    requires ValidState(state)
    ensures var r := Scan(state, [], s);
            if |r| == 1 then r[0] == s
            else && r[0] <= s && OneSlice(state, r[0])
                 && r[1..] == Scan(Normal, [], s[|r[0]|..])
    decreases |s|
  {
    hide NextStep, Scan;
    if s == [] {
      ScanEnd(state, []);
    } else {
      var r := Scan(state, [], s);
      var step := NextStep(state, s);
      var w := step.width;
      ScanUnfold(state, s);
      if step.cut {
        var a := s[..1];
        assert r[0] == a && r[1..] == Scan(Normal, [], s[1..]);
        assert a + s[1..] == s && a[1..] == [] && a[..1] == a;
        StepStopsAtBarrier(state, a, s[1..]);
        ScanUnfold(state, a);
        ScanEnd(Normal, []);
      } else {
        var r' := Scan(step.next, [], s[w..]);
        FirstSlice(step.next, s[w..]);
        assert s[..w] + s[w..] == s;
        if |r'| > 1 {
          var a := s[..w] + r'[0];
          assert r[0] == a && r[1..] == r'[1..];
          assert a + s[|a|..] == s && a[w..] == r'[0] && a[..w] == s[..w];
          assert s[|a|..] == s[w..][|r'[0]|..];
          StepStopsAtBarrier(state, a, s[|a|..]);
          ScanUnfold(state, a);
        }
      }
    }
  }

  /** After a closed slice the scanner starts afresh, whatever follows. */
  lemma {:induction false} ScanPastSlice(state: ScanState, a: string, v: string)
    requires ValidState(state) && OneSlice(state, a)
    ensures Scan(state, [], a + v) == [a] + Scan(Normal, [], v)
    decreases |a|
  {
    hide NextStep;
    var step := NextStep(state, a);
    var w := step.width;
    StepStopsAtBarrier(state, a, v);
    assert (a + v)[..w] == a[..w] && (a + v)[w..] == a[w..] + v;
    assert a[..w] + a[w..] == a;
    assert Scan(state, [], a)[0] == a && Scan(state, [], a)[1] == [] && |Scan(state, [], a)| == 2;
    ScanUnfold(state, a);
    ScanUnfold(state, a + v);
    if step.cut {
      assert a[..w] == a;
      assert a[w..] + v == v;
    } else {
      var r' := Scan(step.next, [], a[w..]);
      Cancel(a[..w], r'[0], a[w..]);
      assert r'[1..] == Scan(state, [], a)[1..];
      assert |r'| == 2 && r'[1] == r'[1..][0] == [];
      assert r' == [a[w..], []];
      ScanEnd(step.next, []);
      ScanPastSlice(step.next, a[w..], v);
    }
  }

  /** Dropping trailing whitespace from text without a cut leaves text without a cut. */
  lemma {:induction false} ScanDropsTrailingSpace(state: ScanState, a: string, v: string)
    requires ValidState(state) && AllSpace(v) && |Scan(state, [], a + v)| == 1
    ensures Scan(state, [], a) == [a]
    decreases |a|
  {
    hide NextStep;
    if a != [] {
      var step := NextStep(state, a);
      var w := step.width;
      StepStopsAtBarrier(state, a, v);
      assert (a + v)[..w] == a[..w] && (a + v)[w..] == a[w..] + v;
      assert a[..w] + a[w..] == a;
      ScanUnfold(state, a + v);
      ScanUnfold(state, a);
      if !step.cut {
        ScanDropsTrailingSpace(step.next, a[w..], v);
      }
    }
  }

  lemma SpaceIsPlain(s: string)
    requires s != [] && IsSpace(s[0])
    ensures NextStep(Normal, s) == ScanStep(Normal, 1, false)
  {
  }

  /** Whitespace in front changes nothing but the text of the first slice. */
  lemma {:induction false} ScanLeadingSpace(v: string, s: string)
    requires AllSpace(v)
    ensures var r := Scan(Normal, [], s);
            Scan(Normal, [], v + s) == [v + r[0]] + r[1..]
    decreases |v|
  {
    hide NextStep;
    var r := Scan(Normal, [], s);
    if v == [] {
      assert v + s == s && v + r[0] == r[0];
    } else {
      assert (v + s)[1..] == v[1..] + s && (v + s)[..1] == v[..1];
      SpaceIsPlain(v + s);
      ScanUnfold(Normal, v + s);
      ScanLeadingSpace(v[1..], s);
      assert v[..1] + (v[1..] + r[0]) == v + r[0];
    }
  }

  // ----- The statements are canonical -----

  lemma {:induction false} TrimStartSplits(s: string)
    ensures var t := TrimStart(s);
            |t| <= |s| && s == s[..|s| - |t|] + t && AllSpace(s[..|s| - |t|])
  {
    var t := TrimStart(s);
    if s != [] && IsSpace(s[0]) {
      TrimStartSplits(s[1..]);
      var n := |s| - |t|;
      assert s[..n] == [s[0]] + s[1..][..n - 1];
      assert s[n..] == s[1..][n - 1..] == t;
    }
  }

  lemma TrimEndOf(s: string)
    requires s != [] && !IsSpace(s[|s| - 1])
    ensures TrimEnd(s) == s
  {
  }

  lemma TrimClosed(x: string)
    requires Closed(x)
    ensures Closed(Trim(x)) && Trimmed(Trim(x))
  {
    hide Scan, TrimStart, TrimEnd;
    TrimStartSplits(x);
    var t := TrimStart(x);
    var v := x[..|x| - |t|];
    assert x == v + t && !IsSpace(x[|x| - 1]);
    assert (v != [] ==> IsSpace(v[|v| - 1])) && (t == [] ==> v == x);
    assert t[|t| - 1] == x[|x| - 1] == ';';
    TrimEndOf(t);
    ScanLeadingSpace(v, t);
    var r := Scan(Normal, [], t);
    assert Scan(Normal, [], x)[0] == x && Scan(Normal, [], x)[1] == [] && |Scan(Normal, [], x)| == 2;
    Cancel(v, r[0], t);
    assert r[1] == r[1..][0] == Scan(Normal, [], x)[1];
  }

  lemma TrimOpen(x: string)
    requires Open(x) && Trim(x) != []
    ensures Open(Trim(x)) && Trimmed(Trim(x))
  {
    hide Scan, TrimStart, TrimEnd;
    TrimStartSplits(x);
    var t := TrimStart(x);
    var v := x[..|x| - |t|];
    ScanLeadingSpace(v, t);
    assert |Scan(Normal, [], x)| == 1;
    var u := Trim(x);
    assert t == u + t[|u|..];
    assert u[0] == t[0];
    ScanDropsTrailingSpace(Normal, u, t[|u|..]);
  }

  /** Every statement but the last ends at a cut; the last may instead have no cut. */
  ghost predicate Canonical(statements: seq<string>) {
    forall i | 0 <= i < |statements| ::
      Trimmed(statements[i]) && (Closed(statements[i]) || (i == |statements| - 1 && Open(statements[i])))
  }

  lemma {:induction false} StatementsCanonical(contents: string)
    ensures Canonical(Keep(Scan(Normal, [], contents)))
    decreases |contents|
  {
    var r := Scan(Normal, [], contents);
    FirstSlice(Normal, contents);
    if |r| == 1 {
      KeepOne(r[0]);
      assert r == [r[0]];
      if Trim(r[0]) != [] {
        TrimOpen(r[0]);
      }
    } else {
      StatementsCanonical(contents[|r[0]|..]);
      TrimClosed(r[0]);
      assert Keep(r) == [Trim(r[0])] + Keep(r[1..]);
    }
  }

  // ----- Splitting undoes joining -----

  function Join(parts: seq<string>, separator: string): string {
    if parts == [] then []
    else if |parts| == 1 then parts[0]
    else parts[0] + separator + Join(parts[1..], separator)
  }

  lemma TrimOfTrimmed(s: string)
    requires Trimmed(s)
    ensures Trim(s) == s
  {
  }

  lemma {:induction false} TrimLeadingSpace(v: string, s: string)
    requires AllSpace(v)
    ensures Trim(v + s) == Trim(s)
  {
    if v == [] {
      assert v + s == s;
    } else {
      assert (v + s)[1..] == v[1..] + s;
      TrimLeadingSpace(v[1..], s);
    }
  }

  lemma {:induction false} ScanJoin(parts: seq<string>, separator: string)
    requires Canonical(parts) && AllSpace(separator)
    ensures Keep(Scan(Normal, [], Join(parts, separator))) == parts
  {
    if parts == [] {
      KeepOne([]);
    } else {
      var x := parts[0];
      TrimOfTrimmed(x);
      KeepOne(x);
      if |parts| == 1 {
        assert parts == [x];
        if Closed(x) {
          assert [x, []] == [x] + [[]];
          KeepOne([]);
          KeepAppend([x], [[]]);
        }
      } else {
        var rest := Join(parts[1..], separator);
        ScanJoin(parts[1..], separator);
        assert x + separator + rest == x + (separator + rest);
        ScanPastSlice(Normal, x, separator + rest);
        ScanLeadingSpace(separator, rest);
        var r := Scan(Normal, [], rest);
        TrimLeadingSpace(separator, r[0]);
        assert ([separator + r[0]] + r[1..])[1..] == r[1..];
        assert Keep([separator + r[0]] + r[1..]) == Keep(r);
        KeepAppend([x], Scan(Normal, [], separator + rest));
      }
    }
  }

  /** Joining the statements with any whitespace, or with nothing, and splitting again gives
      the same list: no cut moves, appears or disappears. */
  lemma SplitUndoesJoin(contents: string, separator: string)
    requires AllSpace(separator)
    ensures Statements(Join(Statements(contents), separator)) == Statements(contents)
  {
    var parts := Statements(contents);
    ScanIsLexer([], contents);
    StatementsCanonical(contents);
    ScanJoin(parts, separator);
    ScanIsLexer([], Join(parts, separator));
  }

  /** A statement split on its own is itself. */
  lemma SplitOfStatement(contents: string, i: nat)
    requires i < |Statements(contents)|
    ensures Statements(Statements(contents)[i]) == [Statements(contents)[i]]
  {
    var x := Statements(contents)[i];
    ScanIsLexer([], contents);
    StatementsCanonical(contents);
    ScanJoin([x], []);
    ScanIsLexer([], x);
  }
}
