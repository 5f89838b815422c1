/** The lexical rules behind `split_sql_statements`, stated twice: as a recursive lexer that
    reads one whole lexical element at a time, and as the six-state scanner of the source. */
module SqlLexer {
  import opened Options
  import opened Text

  // ----- Characters -----

  predicate IsTagChar(c: char) {
    c == '_' || '0' <= c <= '9' || 'a' <= c <= 'z' || 'A' <= c <= 'Z'
  }

  predicate AllTagChars(s: string) {
    forall i | 0 <= i < |s| :: IsTagChar(s[i])
  }

  /** Does `s` start with the two characters `a` and `b`? */
  predicate Starts(s: string, a: char, b: char) {
    |s| >= 2 && s[0] == a && s[1] == b
  }

  function Utf8Width(c: char): (n: nat) {
    var u := c as int;
    if u < 0x80 then 1 else if u < 0x800 then 2 else if u < 0x1_0000 then 3 else 4
  }

  function ByteLength(s: string): nat {
    if s == [] then 0 else Utf8Width(s[0]) + ByteLength(s[1..])
  }

  // ----- Dollar-quote delimiters -----

  function Find(s: string, c: char): (r: Option<nat>)
    ensures r.Some? ==> r.value < |s| && s[r.value] == c && forall i | 0 <= i < r.value :: s[i] != c
    ensures r.None? ==> c !in s
  {
    if s == [] then None
    else if s[0] == c then Some(0)
    else match Find(s[1..], c)
      case None => None
      case Some(n) => Some(n + 1)
  }

  predicate IsDelimiter(d: string) {
    |d| >= 2 && d[0] == '$' && d[|d| - 1] == '$' && AllTagChars(d[1..|d| - 1])
  }

  /** The delimiter that opens at the head of `s`, found by looking ahead to the next `$`. */
  function DollarDelimiter(s: string): (r: Option<string>)
    ensures r.Some? ==> r.value <= s && IsDelimiter(r.value)
  {
    if s == [] || s[0] != '$' then None
    else
      var rest := s[1..];
      match Find(rest, '$')
      case None => None
      case Some(tagEnd) =>
        if AllTagChars(rest[..tagEnd]) then
          var d := s[..tagEnd + 2];
          assert d[1..|d| - 1] == rest[..tagEnd];
          Some(d)
        else None
  }

  /** The lookahead finds a delimiter exactly when the text starts with one. */
  lemma DelimiterExact(s: string, d: string)
    ensures DollarDelimiter(s) == Some(d) <==> d <= s && IsDelimiter(d)
  {
    if d <= s && IsDelimiter(d) {
      var rest, n := s[1..], |d| - 2;
      assert rest[n] == '$' && rest[..n] == d[1..|d| - 1];
      var k := Find(rest, '$').value;
      assert forall i | 0 <= i < n :: rest[i] == d[1..|d| - 1][i] && IsTagChar(rest[i]);
      assert s[0] == d[0] && AllTagChars(rest[..k]) && s[..k + 2] == d;
    }
  }

  // ----- The recursive lexer -----

  function LineLength(s: string): (n: nat)
    ensures n <= |s|
  {
    if s == [] || s[0] == '\n' then 0 else 1 + LineLength(s[1..])
  }

  /** Length of what follows an opening `q`, through the first `q` that is not doubled. */
  function QuotedLength(q: char, s: string): (n: nat)
    ensures n <= |s|
  {
    if s == [] then 0
    else if Starts(s, q, q) then 2 + QuotedLength(q, s[2..])
    else if s[0] == q then 1
    else 1 + QuotedLength(q, s[1..])
  }

  /** Length of what follows an opening slash-star, through the star-slash that closes it.
      A comment inside is a whole comment: the recursion nests as the text does. */
  function CommentLength(s: string): (n: nat)
    ensures n <= |s|
    decreases |s|
  {
    if |s| < 2 then |s|
    else if Starts(s, '*', '/') then 2
    else if Starts(s, '/', '*') then
      var inner := 2 + CommentLength(s[2..]);
      inner + CommentLength(s[inner..])
    else 1 + CommentLength(s[1..])
  }

  /** Length of what follows an opening delimiter, through its first later occurrence. */
  function DollarLength(d: string, s: string): (n: nat)
    ensures n <= |s|
  {
    if s == [] then 0
    else if d <= s then |d|
    else 1 + DollarLength(d, s[1..])
  }

  /** The whole lexical element at the head of `s`. */
  function ElementLength(s: string): (n: nat)
    requires s != []
    ensures 1 <= n <= |s|
  {
    if Starts(s, '-', '-') then 2 + LineLength(s[2..])
    else if Starts(s, '/', '*') then 2 + CommentLength(s[2..])
    else if s[0] == '\'' || s[0] == '"' then 1 + QuotedLength(s[0], s[1..])
    else match DollarDelimiter(s)
      case Some(d) => |d| + DollarLength(d, s[|d|..])
      case None => 1
  }

  /** Cuts the text after every semicolon that is an element of its own. `pre` is the text
      already read since the last cut; the last slice is what follows the last cut. */
  function Slices(pre: string, s: string): (r: seq<string>)
    ensures r != []
    decreases |s|
  {
    if s == [] then [pre]
    else if s[0] == ';' then [pre + [';']] + Slices([], s[1..])
    else
      var n := ElementLength(s);
      Slices(pre + s[..n], s[n..])
  }

  // ----- The scanner -----

  datatype ScanState =
    | Normal
    | SingleQuoted
    | DoubleQuoted
    | LineComment
    | BlockComment(depth: nat)
    | DollarQuoted(delimiter: string)

  predicate ValidState(state: ScanState) {
    match state
    case BlockComment(depth) => depth >= 1
    case DollarQuoted(d) => IsDelimiter(d)
    case _ => true
  }

  /** The state that follows the end of the innermost of `depth` open comments. */
  function AfterComment(depth: nat): ScanState
    requires depth >= 1
  {
    if depth == 1 then Normal else BlockComment(depth - 1)
  }

  datatype ScanStep = ScanStep(next: ScanState, width: nat, cut: bool)

  /** One iteration of the scanning loop on the remaining text `s`. */
  function NextStep(state: ScanState, s: string): (r: ScanStep)
    requires s != [] && ValidState(state)
    ensures 1 <= r.width <= |s| && ValidState(r.next)
    ensures r.cut ==> r.next == Normal && r.width == 1 && s[0] == ';' && state == Normal
  {
    match state
    case Normal =>
      if Starts(s, '-', '-') then ScanStep(LineComment, 2, false)
      else if Starts(s, '/', '*') then ScanStep(BlockComment(1), 2, false)
      else if s[0] == '\'' then ScanStep(SingleQuoted, 1, false)
      else if s[0] == '"' then ScanStep(DoubleQuoted, 1, false)
      else (match DollarDelimiter(s)
            case Some(d) => ScanStep(DollarQuoted(d), |d|, false)
            case None => ScanStep(Normal, 1, s[0] == ';'))
    case SingleQuoted =>
      if Starts(s, '\'', '\'') then ScanStep(SingleQuoted, 2, false)
      else if s[0] == '\'' then ScanStep(Normal, 1, false)
      else ScanStep(SingleQuoted, 1, false)
    case DoubleQuoted =>
      if Starts(s, '"', '"') then ScanStep(DoubleQuoted, 2, false)
      else if s[0] == '"' then ScanStep(Normal, 1, false)
      else ScanStep(DoubleQuoted, 1, false)
    case LineComment =>
      ScanStep(if s[0] == '\n' then Normal else LineComment, 1, false)
    case BlockComment(depth) =>
      if Starts(s, '/', '*') then ScanStep(BlockComment(depth + 1), 2, false)
      else if Starts(s, '*', '/') then ScanStep(AfterComment(depth), 2, false)
      else ScanStep(BlockComment(depth), 1, false)
    case DollarQuoted(d) =>
      if d <= s then ScanStep(Normal, |d|, false) else ScanStep(state, 1, false)
  }

  /** The slices the scanner cuts when it is in `state` with `pre` read since the last cut. */
  function Scan(state: ScanState, pre: string, s: string): (r: seq<string>)
    requires ValidState(state)
    ensures r != []
    decreases |s|
  {
    if s == [] then [pre]
    else
      var step := NextStep(state, s);
      if step.cut then [pre + s[..step.width]] + Scan(Normal, [], s[step.width..])
      else Scan(step.next, pre + s[..step.width], s[step.width..])
  }

  // ----- The scanner cuts where the recursive lexer does -----

  /** From `state`, the scanner reads `n` characters without a cut and is then in `next`. */
  ghost predicate Reaches(state: ScanState, pre: string, s: string, next: ScanState, n: nat)
    requires ValidState(state) && ValidState(next) && n <= |s|
  {
    Scan(state, pre, s) == Scan(next, pre + s[..n], s[n..])
  }

  lemma ReachesAll(state: ScanState, pre: string, s: string, next: ScanState)
    requires ValidState(state) && ValidState(next) && |s| <= 1
    requires s == [] || NextStep(state, s) == ScanStep(state, 1, false)
    ensures Reaches(state, pre, s, next, |s|)
  {
    hide NextStep;
    assert s[|s|..] == [] && pre + s[..|s|] == pre + s && pre + [] == pre;
    assert Scan(state, pre, s) == [pre + s];
  }

  lemma ReachesNone(state: ScanState, pre: string, s: string)
    requires ValidState(state)
    ensures Reaches(state, pre, s, state, 0)
  {
    assert pre + s[..0] == pre && s[0..] == s;
  }

  lemma ReachesThen(state: ScanState, pre: string, s: string, mid: ScanState, w: nat, next: ScanState, n: nat)
    requires ValidState(state) && ValidState(mid) && ValidState(next) && w <= n <= |s|
    requires Reaches(state, pre, s, mid, w)
    requires Reaches(mid, pre + s[..w], s[w..], next, n - w)
    ensures Reaches(state, pre, s, next, n)
  {
    hide Scan;
    assert (pre + s[..w]) + s[w..][..n - w] == pre + s[..n];
    assert s[w..][n - w..] == s[n..];
  }

  /** One iteration of the loop. */
  lemma ScanOnce(state: ScanState, pre: string, s: string)
    requires ValidState(state) && s != []
    ensures var step := NextStep(state, s);
            if step.cut
            then Scan(state, pre, s) == [pre + s[..step.width]] + Scan(Normal, [], s[step.width..])
            else Reaches(state, pre, s, step.next, step.width)
  {
    hide NextStep;
  }

  lemma ScanEnd(state: ScanState, pre: string)
    requires ValidState(state)
    ensures Scan(state, pre, []) == [pre]
  {
  }

  lemma {:induction false} ScanQuoted(state: ScanState, q: char, pre: string, s: string)
    requires (state == SingleQuoted && q == '\'') || (state == DoubleQuoted && q == '"')
    ensures Reaches(state, pre, s, Normal, QuotedLength(q, s))
    decreases |s|
  {
    hide Reaches;
    if s == [] {
      ReachesAll(state, pre, s, Normal);
    } else {
      ScanOnce(state, pre, s);
      if Starts(s, q, q) || s[0] != q {
        var w := NextStep(state, s).width;
        ScanQuoted(state, q, pre + s[..w], s[w..]);
        ReachesThen(state, pre, s, state, w, Normal, QuotedLength(q, s));
      }
    }
  }

  lemma {:induction false} ScanComment(depth: nat, pre: string, s: string)
    requires depth >= 1
    ensures Reaches(BlockComment(depth), pre, s, AfterComment(depth), CommentLength(s))
    decreases |s|
  {
    hide Reaches;
    var here, after := BlockComment(depth), AfterComment(depth);
    if |s| < 2 {
      ReachesAll(here, pre, s, after);
    } else {
      ScanOnce(here, pre, s);
      if Starts(s, '*', '/') {
      } else if Starts(s, '/', '*') {
        var inner := 2 + CommentLength(s[2..]);
        ScanComment(depth + 1, pre + s[..2], s[2..]);
        ReachesThen(here, pre, s, BlockComment(depth + 1), 2, here, inner);
        ScanComment(depth, pre + s[..inner], s[inner..]);
        ReachesThen(here, pre, s, here, inner, after, CommentLength(s));
      } else {
        ScanComment(depth, pre + s[..1], s[1..]);
        ReachesThen(here, pre, s, here, 1, after, CommentLength(s));
      }
    }
  }

  lemma {:induction false} ScanDollar(d: string, pre: string, s: string)
    requires IsDelimiter(d)
    ensures Reaches(DollarQuoted(d), pre, s, Normal, DollarLength(d, s))
    decreases |s|
  {
    hide Reaches;
    if s == [] {
      ReachesAll(DollarQuoted(d), pre, s, Normal);
    } else {
      ScanOnce(DollarQuoted(d), pre, s);
      if !(d <= s) {
        ScanDollar(d, pre + s[..1], s[1..]);
        ReachesThen(DollarQuoted(d), pre, s, DollarQuoted(d), 1, Normal, DollarLength(d, s));
      }
    }
  }

  lemma {:induction false} ScanLine(pre: string, s: string)
    ensures Reaches(LineComment, pre, s, Normal, LineLength(s))
    decreases |s|
  {
    hide Reaches;
    if s == [] {
      ReachesAll(LineComment, pre, s, Normal);
    } else if s[0] == '\n' {
      LineEnd(pre, s);
    } else {
      ScanOnce(LineComment, pre, s);
      ScanLine(pre + s[..1], s[1..]);
      ReachesThen(LineComment, pre, s, LineComment, 1, Normal, LineLength(s));
    }
  }

  /** The line feed that ends a line comment may as well be read as plain text. */
  lemma LineEnd(pre: string, s: string)
    requires s != [] && s[0] == '\n'
    ensures Reaches(LineComment, pre, s, Normal, 0)
  {
    LineFeedIsPlain(s);
    hide NextStep;
    assert pre + s[..0] == pre && s[0..] == s;
    assert Scan(LineComment, pre, s) == Scan(Normal, pre + s[..1], s[1..]);
    assert Scan(Normal, pre, s) == Scan(Normal, pre + s[..1], s[1..]);
  }

  lemma LineFeedIsPlain(s: string)
    requires s != [] && s[0] == '\n'
    ensures NextStep(LineComment, s) == NextStep(Normal, s) == ScanStep(Normal, 1, false)
  {
  }

  /** Whatever state one step from `Normal` leads to, the scanner is back in `Normal` at the
      end of the element. */
  lemma ScanElement(pre: string, s: string)
    requires s != [] && s[0] != ';'
    ensures Reaches(Normal, pre, s, Normal, ElementLength(s))
  {
    hide Reaches, QuotedLength, CommentLength, LineLength, DollarLength, DollarDelimiter;
    var step := NextStep(Normal, s);
    var w := step.width;
    ScanOnce(Normal, pre, s);
    match step.next {
      case SingleQuoted => ScanQuoted(SingleQuoted, '\'', pre + s[..w], s[w..]);
      case DoubleQuoted => ScanQuoted(DoubleQuoted, '"', pre + s[..w], s[w..]);
      case LineComment => ScanLine(pre + s[..w], s[w..]);
      case BlockComment(_) => ScanComment(1, pre + s[..w], s[w..]);
      case DollarQuoted(d) => ScanDollar(d, pre + s[..w], s[w..]);
      case Normal => ReachesNone(Normal, pre + s[..w], s[w..]);
    }
    ReachesThen(Normal, pre, s, step.next, w, Normal, ElementLength(s));
  }

  lemma SemicolonCuts(s: string)
    requires s != [] && s[0] == ';'
    ensures NextStep(Normal, s) == ScanStep(Normal, 1, true)
  {
  }

  /** The scanner's cuts are exactly the recursive lexer's top-level semicolons. */
  lemma {:induction false} ScanIsLexer(pre: string, s: string)
    ensures Scan(Normal, pre, s) == Slices(pre, s)
    decreases |s|
  {
    hide Scan, NextStep, ElementLength;
    if s == [] {
      ScanEnd(Normal, pre);
    } else if s[0] == ';' {
      SemicolonCuts(s);
      ScanOnce(Normal, pre, s);
      assert pre + s[..1] == pre + [';'];
      ScanIsLexer([], s[1..]);
    } else {
      var n := ElementLength(s);
      ScanElement(pre, s);
      ScanIsLexer(pre + s[..n], s[n..]);
    }
  }

  // ----- Byte offsets -----

  /** How far the source moves its byte index in one iteration. */
  function SourceByteAdvance(state: ScanState, s: string): nat
    requires s != [] && ValidState(state)
  {
    match state
    case Normal =>
      if Starts(s, '-', '-') || Starts(s, '/', '*') then 2
      else if s[0] == '\'' || s[0] == '"' then 1
      else (match DollarDelimiter(s)
            case Some(d) => ByteLength(d)
            case None => if s[0] == ';' then 1 else Utf8Width(s[0]))
    case SingleQuoted => if Starts(s, '\'', '\'') then 2 else if s[0] == '\'' then 1 else Utf8Width(s[0])
    case DoubleQuoted => if Starts(s, '"', '"') then 2 else if s[0] == '"' then 1 else Utf8Width(s[0])
    case LineComment => Utf8Width(s[0])
    case BlockComment(_) => if Starts(s, '/', '*') || Starts(s, '*', '/') then 2 else Utf8Width(s[0])
    case DollarQuoted(d) => if d <= s then ByteLength(d) else Utf8Width(s[0])
  }

  /** The byte index always advances, and by whole characters. */
  lemma {:induction false} ByteAdvanceIsOnCharacterBoundary(state: ScanState, s: string)
    requires s != [] && ValidState(state)
    ensures SourceByteAdvance(state, s) == ByteLength(s[..NextStep(state, s).width]) >= 1
  {
    var step := NextStep(state, s);
    var w := step.width;
    ByteLengthStep(s[..w]);
    if state.DollarQuoted? && state.delimiter <= s {
      assert s[..w] == state.delimiter;
    } else if state.Normal? && step.next.DollarQuoted? {
      assert s[..w] == step.next.delimiter;
    } else if w == 1 {
      assert s[..1][1..] == [];
    } else {
      assert s[..2][1..] == [s[1]];
      ByteLengthStep([s[1]]);
      assert ByteLength(s[..2]) == Utf8Width(s[0]) + Utf8Width(s[1]);
    }
  }

  lemma ByteLengthStep(s: string)
    requires s != []
    ensures ByteLength(s) == Utf8Width(s[0]) + ByteLength(s[1..]) >= 1
    ensures |s| == 1 ==> ByteLength(s) == Utf8Width(s[0])
  {
  }
}
