/** `split_sql_statements`: the scanning loop, and the laws it keeps. */
module SqlSplitter {
  import opened Options
  import opened Text
  import opened SqlLexer

  /** The trimmed slices, without the empty ones. */
  function Keep(slices: seq<string>): seq<string> {
    if slices == [] then []
    else (if Trim(slices[0]) == [] then [] else [Trim(slices[0])]) + Keep(slices[1..])
  }

  /** What `split_sql_statements` returns, in terms of the recursive lexer. */
  function Statements(contents: string): seq<string> {
    Keep(Slices([], contents))
  }

  // ----- The loop -----

  lemma {:induction false} KeepAppend(a: seq<string>, b: seq<string>)
    ensures Keep(a + b) == Keep(a) + Keep(b)
  {
    if a == [] {
      assert a + b == b;
    } else {
      assert (a + b)[1..] == a[1..] + b;
      KeepAppend(a[1..], b);
    }
  }

  lemma AdvanceSlice(contents: string, start: nat, index: nat, next: nat)
    requires start <= index <= next <= |contents|
    ensures contents[start..index] + contents[index..][..next - index] == contents[start..next]
    ensures contents[index..][next - index..] == contents[next..] && contents[next..next] == []
  {
  }

  lemma OneStep(contents: string, start: nat, index: nat, state: ScanState)
    requires start <= index < |contents| && ValidState(state)
    ensures var step := NextStep(state, contents[index..]);
            var next := index + step.width;
            Keep(Scan(state, contents[start..index], contents[index..]))
            == if step.cut
               then Keep([contents[start..next]]) + Keep(Scan(Normal, contents[next..next], contents[next..]))
               else Keep(Scan(step.next, contents[start..next], contents[next..]))
  {
    hide NextStep, Scan, Keep;
    var step := NextStep(state, contents[index..]);
    var next := index + step.width;
    ScanOnce(state, contents[start..index], contents[index..]);
    AdvanceSlice(contents, start, index, next);
    if step.cut {
      KeepAppend([contents[start..next]], Scan(Normal, [], contents[next..]));
    }
  }

  lemma KeepOne(slice: string)
    ensures Keep([slice]) == if Trim(slice) == [] then [] else [Trim(slice)]
  {
    assert Keep([slice]) == (if Trim(slice) == [] then [] else [Trim(slice)]) + Keep([]);
  }

  method SplitSqlStatements(contents: string) returns (statements: seq<string>)
    ensures statements == Statements(contents)
  {
    hide Scan, Keep, Slices, Trim, DollarDelimiter;
    ScanIsLexer([], contents);
    statements := [];
    var state := Normal;
    var start, index := 0, 0;
    assert contents[start..index] == [] && contents[index..] == contents;
    while index < |contents|
      invariant 0 <= start <= index <= |contents|
      invariant ValidState(state)
      invariant Keep(Scan(Normal, [], contents))
             == statements + Keep(Scan(state, contents[start..index], contents[index..]))
    {
      var rest := contents[index..];
      ghost var step := NextStep(state, rest);
      ghost var before := (statements, start, state);
      var width := 1;
      match state {
        case Normal =>
          if Starts(rest, '-', '-') {
            state, width := LineComment, 2;
          } else if Starts(rest, '/', '*') {
            state, width := BlockComment(1), 2;
          } else if rest[0] == '\'' {
            state := SingleQuoted;
          } else if rest[0] == '"' {
            state := DoubleQuoted;
          } else {
            var delimiter := DollarDelimiter(rest);
            if delimiter.Some? {
              state, width := DollarQuoted(delimiter.value), |delimiter.value|;
            } else if rest[0] == ';' {
              var end := index + 1;
              var statement := Trim(contents[start..end]);
              if statement != [] {
                statements := statements + [statement];
              }
              start := end;
            }
          }
        case SingleQuoted =>
          if Starts(rest, '\'', '\'') {
            width := 2;
          } else if rest[0] == '\'' {
            state := Normal;
          }
        case DoubleQuoted =>
          if Starts(rest, '"', '"') {
            width := 2;
          } else if rest[0] == '"' {
            state := Normal;
          }
        case LineComment =>
          if rest[0] == '\n' {
            state := Normal;
          }
        case BlockComment(depth) =>
          if Starts(rest, '/', '*') {
            state, width := BlockComment(depth + 1), 2;
          } else if Starts(rest, '*', '/') {
            state, width := (if depth == 1 then Normal else BlockComment(depth - 1)), 2;
          }
        case DollarQuoted(delimiter) =>
          if delimiter <= rest {
            state, width := Normal, |delimiter|;
          }
      }
      assert state == step.next && width == step.width;
      OneStep(contents, before.1, index, before.2);
      index := index + width;
      KeepOne(contents[before.1..index]);
    }
    assert contents[index..] == [] && Scan(state, contents[start..index], []) == [contents[start..index]] by {
      ScanEnd(state, contents[start..index]);
    }
    var statement := Trim(contents[start..]);
    assert contents[start..index] == contents[start..];
    KeepOne(contents[start..]);
    if statement != [] {
      statements := statements + [statement];
    }
  }
}
