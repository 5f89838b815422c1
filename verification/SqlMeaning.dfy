/** What `split_sql_statements` cuts, told on the written form of SQL: every text is a sequence of
    quotations, comments and plain characters, and the cuts are the semicolons between them. */
module SqlMeaning {
  import opened Options
  import opened SqlLexer
  import opened SqlSplitter

  /** What follows the opening mark of a block comment. `EndOfText` stands where the text ends
      before the closing mark. */
  datatype Inside =
    | Close
    | EndOfText
    | Char(c: char, rest: Inside)
    | Nested(inner: Inside, rest: Inside)

  /** The pieces of a text; one with `closed` false lacks its closing mark. */
  datatype Piece =
    | Cut
    | Plain(c: char)
    | Quoted(q: char, quoted: string, closed: bool)
    | Line(comment: string)
    | Block(inside: Inside)
    | Dollar(delimiter: string, body: string, closed: bool)

  // ----- How they are written -----

  /** The text with every `q` doubled. */
  function Doubled(q: char, s: string): string {
    if s == [] then [] else (if s[0] == q then [q, q] else [s[0]]) + Doubled(q, s[1..])
  }

  function InsideText(i: Inside): string {
    match i
    case Close => "*/"
    case EndOfText => ""
    case Char(c, rest) => [c] + InsideText(rest)
    case Nested(inner, rest) => "/*" + InsideText(inner) + InsideText(rest)
  }

  function PieceText(p: Piece): string {
    match p
    case Cut => ";"
    case Plain(c) => [c]
    case Quoted(q, quoted, closed) => [q] + (Doubled(q, quoted) + if closed then [q] else [])
    case Line(comment) => "--" + comment
    case Block(inside) => "/*" + InsideText(inside)
    case Dollar(d, body, closed) => d + (body + if closed then d else [])
  }

  function Render(pieces: seq<Piece>): string {
    if pieces == [] then [] else PieceText(pieces[0]) + Render(pieces[1..])
  }

  // ----- Which pieces may stand before which text -----

  predicate Begins(s: string, c: char) {
    s != [] && s[0] == c
  }

  /** Single characters are no part of a mark, and only the end of the text leaves a comment open. */
  predicate InsideFits(i: Inside, after: string) {
    match i
    case Close => true
    case EndOfText => after == []
    case Char(c, rest) =>
      var follow := InsideText(rest) + after;
      !(c == '*' && Begins(follow, '/')) && !(c == '/' && Begins(follow, '*')) && InsideFits(rest, after)
    case Nested(inner, rest) => InsideFits(inner, InsideText(rest) + after) && InsideFits(rest, after)
  }

  /** The delimiter does not start inside the body, not even with its end outside. */
  predicate StartsNowhere(d: string, body: string, close: string) {
    forall k | 0 <= k < |body| :: !(d <= (body + close)[k..])
  }

  ghost predicate PieceFits(p: Piece, after: string) {
    match p
    case Cut => true
    case Plain(c) =>
      && c != ';' && c != '\'' && c != '"' && !(c == '-' && Begins(after, '-')) && !(c == '/' && Begins(after, '*'))
      && forall n | 0 <= n <= |after| + 1 :: !IsDelimiter(([c] + after)[..n])
    case Quoted(q, _, closed) => (q == '\'' || q == '"') && if closed then !Begins(after, q) else after == []
    case Line(comment) => '\n' !in comment && (after == [] || after[0] == '\n')
    case Block(inside) => InsideFits(inside, after)
    case Dollar(d, body, closed) =>
      IsDelimiter(d) && (closed || after == []) && StartsNowhere(d, body, if closed then d else [])
  }

  ghost predicate WellFormed(pieces: seq<Piece>) {
    pieces != [] ==> PieceFits(pieces[0], Render(pieces[1..])) && WellFormed(pieces[1..])
  }

  /** The text between the cuts; every slice but the last ends with its semicolon. */
  function Grouped(before: string, pieces: seq<Piece>): seq<string>
    decreases |pieces|
  {
    if pieces == [] then [before]
    else if pieces[0] == Cut then [before + ";"] + Grouped([], pieces[1..])
    else Grouped(before + PieceText(pieces[0]), pieces[1..])
  }

  // ----- The lexer reads what was written -----

  lemma {:induction false} QuotedIsRead(q: char, s: string, closed: bool, after: string)
    requires if closed then !Begins(after, q) else after == []
    ensures var written := Doubled(q, s) + if closed then [q] else [];
            QuotedLength(q, written + after) == |written|
  {
    var close := if closed then [q] else [];
    var text := Doubled(q, s) + close + after;
    if s == [] {
      assert text == close + after;
    } else {
      var head := if s[0] == q then [q, q] else [s[0]];
      QuotedIsRead(q, s[1..], closed, after);
      assert text == head + (Doubled(q, s[1..]) + close + after);
      assert text[|head|..] == Doubled(q, s[1..]) + close + after;
    }
  }

  lemma {:induction false} InsideIsRead(i: Inside, after: string)
    requires InsideFits(i, after)
    ensures CommentLength(InsideText(i) + after) == |InsideText(i)|
  {
    hide CommentLength;
    match i {
      case Close => MarkIsRead(after);
      case EndOfText => NothingIsRead();
      case Char(c, rest) =>
        InsideIsRead(rest, after);
        CharIsRead(c, InsideText(rest) + after);
        RegroupChar(c, InsideText(rest), after);
      case Nested(inner, rest) =>
        var follow := InsideText(rest) + after;
        InsideIsRead(inner, follow);
        InsideIsRead(rest, after);
        NestedIsRead(InsideText(inner), follow);
        Regroup(InsideText(inner), InsideText(rest), after);
    }
  }

  lemma MarkIsRead(after: string)
    ensures CommentLength("*/" + after) == 2
  {
  }

  lemma NothingIsRead()
    ensures CommentLength([] + []) == 0
  {
  }

  lemma RegroupChar(c: char, rest: string, after: string)
    ensures [c] + rest + after == [c] + (rest + after)
  {
  }

  lemma Regroup(inner: string, rest: string, after: string)
    ensures "/*" + inner + rest + after == "/*" + inner + (rest + after)
  {
  }

  lemma CharIsRead(c: char, follow: string)
    requires !(c == '*' && Begins(follow, '/')) && !(c == '/' && Begins(follow, '*'))
    ensures CommentLength([c] + follow) == 1 + CommentLength(follow)
  {
    assert ([c] + follow)[1..] == follow;
  }

  lemma NestedIsRead(inner: string, follow: string)
    requires CommentLength(inner + follow) == |inner|
    ensures CommentLength("/*" + inner + follow) == 2 + |inner| + CommentLength(follow)
  {
    var text := "/*" + inner + follow;
    assert Starts(text, '/', '*') && !Starts(text, '*', '/');
    assert text[2..] == inner + follow && text[2 + |inner|..] == follow;
  }

  lemma {:induction false} LineIsRead(comment: string, after: string)
    requires '\n' !in comment && (after == [] || after[0] == '\n')
    ensures LineLength(comment + after) == |comment|
  {
    if comment == [] {
      assert comment + after == after;
    } else {
      assert (comment + after)[1..] == comment[1..] + after;
      LineIsRead(comment[1..], after);
    }
  }

  lemma {:induction false} DollarIsRead(d: string, body: string, close: string, after: string)
    requires IsDelimiter(d) && (close == d || (close == [] && after == []))
    requires StartsNowhere(d, body, close)
    ensures DollarLength(d, body + close + after) == |body + close|
  {
    var text := body + close + after;
    if body == [] {
      assert text == close + after;
      assert close == [] ==> text == [];
    } else {
      assert (body + close)[0..] == body + close;
      assert d <= text && close == d ==> d <= body + close;
      assert text[1..] == body[1..] + close + after;
      forall k | 0 <= k < |body[1..]|
        ensures !(d <= (body[1..] + close)[k..])
      {
        assert (body[1..] + close)[k..] == (body + close)[k + 1..];
      }
      DollarIsRead(d, body[1..], close, after);
    }
  }

  lemma PieceIsRead(p: Piece, after: string)
    requires p != Cut && PieceFits(p, after)
    ensures var text := PieceText(p) + after;
            PieceText(p) != [] && text[0] != ';' && ElementLength(text) == |PieceText(p)|
  {
    hide InsideText, InsideFits, CommentLength, QuotedLength, LineLength, DollarLength, DollarDelimiter, Doubled;
    var text := PieceText(p) + after;
    match p {
      case Plain(c) =>
        assert text == [c] + after;
        NoDelimiter(text);
      case Quoted(q, s, closed) =>
        var written := Doubled(q, s) + if closed then [q] else [];
        QuotedIsRead(q, s, closed, after);
        assert text == [q] + (written + after);
        assert text[1..] == written + after;
      case Line(comment) =>
        LineIsRead(comment, after);
        assert text == "--" + (comment + after);
        assert text[2..] == comment + after;
      case Block(inside) =>
        InsideIsRead(inside, after);
        assert text == "/*" + (InsideText(inside) + after);
        assert text[2..] == InsideText(inside) + after;
      case Dollar(d, body, closed) =>
        DollarPieceIsRead(d, body, if closed then d else [], after);
    }
  }

  lemma DollarPieceIsRead(d: string, body: string, close: string, after: string)
    requires IsDelimiter(d) && (close == d || (close == [] && after == []))
    requires StartsNowhere(d, body, close)
    ensures var text := d + (body + close) + after;
            text[0] == '$' && ElementLength(text) == |d| + |body + close|
  {
    hide DollarLength, DollarDelimiter;
    DollarIsRead(d, body, close, after);
    var text := d + (body + close) + after;
    assert text == d + (body + close + after);
    assert d <= text && text[|d|..] == body + close + after && text[0] == d[0];
    DelimiterExact(text, d);
  }

  lemma NoDelimiter(text: string)
    requires forall n | 0 <= n <= |text| :: !IsDelimiter(text[..n])
    ensures DollarDelimiter(text).None?
  {
    forall d
      ensures DollarDelimiter(text) != Some(d)
    {
      DelimiterExact(text, d);
      assert d <= text ==> d == text[..|d|];
    }
  }

  lemma {:induction false} CutsAreSemicolons(before: string, pieces: seq<Piece>)
    requires WellFormed(pieces)
    ensures Slices(before, Render(pieces)) == Grouped(before, pieces)
    decreases |pieces|
  {
    hide PieceFits, ElementLength;
    if pieces != [] {
      var rest, text := Render(pieces[1..]), PieceText(pieces[0]);
      var whole := text + rest;
      if pieces[0] == Cut {
        assert whole[0] == ';' && whole[1..] == rest;
        CutsAreSemicolons([], pieces[1..]);
      } else {
        PieceIsRead(pieces[0], rest);
        hide PieceText;
        assert whole[..|text|] == text && whole[|text|..] == rest;
        CutsAreSemicolons(before + text, pieces[1..]);
      }
    }
  }

  // ----- Every text is a sequence of pieces -----

  lemma {:induction false} ReadQuoted(q: char, s: string) returns (quoted: string, closed: bool)
    ensures var n := QuotedLength(q, s);
            && s[..n] == Doubled(q, quoted) + (if closed then [q] else [])
            && if closed then !Begins(s[n..], q) else s[n..] == []
  {
    if s == [] {
      quoted, closed := [], false;
    } else if s[0] == q && !Starts(s, q, q) {
      quoted, closed := [], true;
      assert s[..1] == [q];
    } else {
      var w := if s[0] == q then 2 else 1;
      var n := QuotedLength(q, s[w..]);
      var rest;
      rest, closed := ReadQuoted(q, s[w..]);
      quoted := [s[0]] + rest;
      assert quoted[1..] == rest;
      assert s[..w + n] == s[..w] + s[w..][..n];
      assert s[w + n..] == s[w..][n..];
      assert s[..w] == if s[0] == q then [q, q] else [s[0]];
    }
  }

  lemma {:induction false} ReadInside(s: string) returns (i: Inside)
    ensures InsideText(i) == s[..CommentLength(s)] && InsideFits(i, s[CommentLength(s)..])
    decreases |s|
  {
    if s == [] {
      i := EndOfText;
    } else if Starts(s, '*', '/') {
      i := Close;
      assert s[..2] == "*/";
    } else if Starts(s, '/', '*') {
      var inner := ReadInside(s[2..]);
      var n := |InsideText(inner)|;
      var rest := ReadInside(s[2..][n..]);
      i := Nested(inner, rest);
      NestedIsWritten(s, InsideText(inner), InsideText(rest));
    } else {
      var rest := ReadInside(s[1..]);
      i := Char(s[0], rest);
      CharIsWritten(s, InsideText(rest));
    }
  }

  lemma NestedIsWritten(s: string, inner: string, rest: string)
    requires Starts(s, '/', '*') && inner == s[2..][..CommentLength(s[2..])]
    requires rest == s[2..][|inner|..][..CommentLength(s[2..][|inner|..])]
    ensures CommentLength(s) == 2 + |inner| + |rest|
    ensures "/*" + inner + rest == s[..CommentLength(s)]
    ensures s[2..][|inner|..] == rest + s[CommentLength(s)..]
    ensures s[2..][|inner|..][|rest|..] == s[CommentLength(s)..]
  {
    assert s[2..][|inner|..] == s[2 + |inner|..];
    assert CommentLength(s) == 2 + |inner| + |rest|;
    hide CommentLength;
    Tiles(s, inner, rest);
  }

  lemma Tiles(s: string, inner: string, rest: string)
    requires Starts(s, '/', '*') && inner <= s[2..] && rest <= s[2..][|inner|..]
    ensures var n := 2 + |inner| + |rest|;
            n <= |s| && "/*" + inner + rest == s[..n] && s[2..][|inner|..] == rest + s[n..] && s[2..][|inner|..][|rest|..] == s[n..]
  {
    var n := 2 + |inner| + |rest|;
    assert s[2..] == inner + (rest + s[n..]);
    assert s == "/*" + inner + rest + s[n..];
  }

  lemma CharIsWritten(s: string, rest: string)
    requires s != [] && !Starts(s, '*', '/') && !Starts(s, '/', '*') && rest == s[1..][..CommentLength(s[1..])]
    ensures [s[0]] + rest == s[..CommentLength(s)]
    ensures s[1..] == rest + s[CommentLength(s)..]
    ensures s[1..][|rest|..] == s[CommentLength(s)..]
  {
    assert CommentLength(s) == 1 + CommentLength(s[1..]);
    hide CommentLength;
    assert s[1..][|rest|..] == s[1 + |rest|..];
  }

  lemma {:induction false} ReadLine(s: string)
    ensures var n := LineLength(s);
            '\n' !in s[..n] && (s[n..] == [] || s[n..][0] == '\n')
  {
    if s != [] && s[0] != '\n' {
      ReadLine(s[1..]);
      var n := LineLength(s[1..]);
      assert s[..1 + n] == [s[0]] + s[1..][..n] && s[1 + n..] == s[1..][n..];
    }
  }

  lemma {:induction false} ReadDollar(d: string, s: string) returns (body: string, closed: bool)
    requires IsDelimiter(d)
    ensures var n := DollarLength(d, s);
            s[..n] == body + (if closed then d else []) && (closed || s[n..] == [])
    ensures StartsNowhere(d, body, if closed then d else [])
  {
    if s == [] {
      body, closed := [], false;
    } else if d <= s {
      body, closed := [], true;
      assert s[..|d|] == d;
    } else {
      var n := DollarLength(d, s[1..]);
      var rest;
      rest, closed := ReadDollar(d, s[1..]);
      body := [s[0]] + rest;
      var close := if closed then d else [];
      assert s[..1 + n] == [s[0]] + s[1..][..n] && s[1 + n..] == s[1..][n..];
      assert body + close == s[..1 + n];
      forall k | 0 <= k < |body|
        ensures !(d <= (body + close)[k..])
      {
        if k == 0 {
          assert d <= (body + close)[0..] ==> d <= s;
        } else {
          assert (body + close)[k..] == (rest + close)[k - 1..];
        }
      }
    }
  }

  lemma ReadPiece(s: string) returns (p: Piece)
    requires s != []
    ensures if s[0] == ';' then p == Cut
            else p != Cut && PieceText(p) == s[..ElementLength(s)] && PieceFits(p, s[ElementLength(s)..])
  {
    hide InsideText, InsideFits, CommentLength, QuotedLength, LineLength, DollarLength, DollarDelimiter, Doubled;
    if s[0] == ';' {
      p := Cut;
    } else if Starts(s, '-', '-') {
      ReadLine(s[2..]);
      var n := LineLength(s[2..]);
      p := Line(s[2..][..n]);
      assert s[..2 + n] == s[..2] + s[2..][..n] && s[..2] == "--" && s[2 + n..] == s[2..][n..];
    } else if Starts(s, '/', '*') {
      var inside := ReadInside(s[2..]);
      var n := CommentLength(s[2..]);
      p := Block(inside);
      assert s[..2 + n] == s[..2] + s[2..][..n] && s[..2] == "/*" && s[2 + n..] == s[2..][n..];
    } else if s[0] == '\'' || s[0] == '"' {
      var quoted, closed := ReadQuoted(s[0], s[1..]);
      var n := QuotedLength(s[0], s[1..]);
      p := Quoted(s[0], quoted, closed);
      assert s[..1 + n] == s[..1] + s[1..][..n] && s[..1] == [s[0]] && s[1 + n..] == s[1..][n..];
    } else {
      p := ReadDollarOrPlain(s);
    }
  }

  lemma ReadDollarOrPlain(s: string) returns (p: Piece)
    requires s != [] && !Starts(s, '-', '-') && !Starts(s, '/', '*') && s[0] != '\'' && s[0] != '"' && s[0] != ';'
    ensures p != Cut && PieceText(p) == s[..ElementLength(s)] && PieceFits(p, s[ElementLength(s)..])
  {
    hide DollarLength, DollarDelimiter;
    match DollarDelimiter(s)
    case Some(d) =>
      var body, closed := ReadDollar(d, s[|d|..]);
      var n := DollarLength(d, s[|d|..]);
      p := Dollar(d, body, closed);
      assert s[..|d| + n] == s[..|d|] + s[|d|..][..n] && s[..|d|] == d && s[|d| + n..] == s[|d|..][n..];
    case None =>
      p := Plain(s[0]);
      assert s == [s[0]] + s[1..];
      forall n | 0 <= n <= |s|
        ensures !IsDelimiter(s[..n])
      {
        DelimiterExact(s, s[..n]);
      }
  }

  lemma {:induction false} EveryTextIsPieces(s: string) returns (pieces: seq<Piece>)
    ensures WellFormed(pieces) && Render(pieces) == s
    decreases |s|
  {
    hide PieceFits, ElementLength;
    if s == [] {
      pieces := [];
    } else {
      var p := ReadPiece(s);
      var n := if s[0] == ';' then 1 else ElementLength(s);
      var rest := EveryTextIsPieces(s[n..]);
      pieces := [p] + rest;
      assert pieces[1..] == rest && s == s[..n] + s[n..];
      if s[0] == ';' {
        CutFits(s[n..]);
        assert s[..1] == ";";
      }
    }
  }

  lemma CutFits(after: string)
    ensures PieceFits(Cut, after)
  {
  }

  /** Every text can be read as pieces, and however it is read so, its statements are the trimmed
      texts between the semicolons that are pieces of their own, each with its semicolon: what is
      quoted or commented never cuts, and everything else does. */
  lemma StatementsMeaning(s: string)
    ensures exists pieces :: WellFormed(pieces) && Render(pieces) == s
    ensures forall pieces | WellFormed(pieces) && Render(pieces) == s :: Statements(s) == Keep(Grouped([], pieces))
  {
    var some := EveryTextIsPieces(s);
    forall pieces | WellFormed(pieces) && Render(pieces) == s
      ensures Statements(s) == Keep(Grouped([], pieces))
    {
      CutsAreSemicolons([], pieces);
    }
  }
}
