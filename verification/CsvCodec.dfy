/** The CSV printed for `COPY`, read back by the record grammar of RFC 4180. */
module CsvCodec {
  import opened Options
  import opened Text

  predicate UuidChar(c: char) {
    c == '-' || '0' <= c <= '9' || 'a' <= c <= 'f'
  }

  predicate IsUuidText(s: string) {
    forall i | 0 <= i < |s| :: UuidChar(s[i])
  }

  /** A printed id. */
  type UuidText = s: string | IsUuidText(s) witness ""

  datatype Row = Row(
    organization: UuidText, team: UuidText, project: UuidText, session: UuidText, provider: string,
    eventType: string, eventTime: string, eventId: string, key: string, payload: string, raw: string,
    turn: Option<string>)

  // ----- Printing -----

  /** `replace('"', "\"\"")`. */
  function Doubled(s: string): string {
    if s == [] then [] else (if s[0] == '"' then "\"\"" else [s[0]]) + Doubled(s[1..])
  }

  function Quoted(s: string): string {
    "\"" + s + "\""
  }

  function Escaped(s: string): string {
    Quoted(Doubled(s))
  }

  function TurnText(turn: Option<string>): string {
    match turn case Some(s) => s case None => ""
  }

  function Fields(row: Row): seq<string> {
    [row.organization, row.team, row.project, row.session, row.provider, row.eventType, row.eventTime,
     row.eventId, row.key, row.payload, row.raw, TurnText(row.turn)]
  }

  /** The printed fields: ids bare, the provider quoted as it is, the others escaped. */
  function Printed(row: Row): seq<string> {
    [row.organization, row.team, row.project, row.session, Quoted(row.provider), Escaped(row.eventType),
     Escaped(row.eventTime), Escaped(row.eventId), Escaped(row.key), Escaped(row.payload), Escaped(row.raw),
     Escaped(TurnText(row.turn))]
  }

  /** One record: the fields separated by commas, and a line feed. */
  function Line(fields: seq<string>): string
    requires fields != []
  {
    if |fields| == 1 then fields[0] + "\n" else fields[0] + "," + Line(fields[1..])
  }

  function PrintRow(row: Row): string {
    Line(Printed(row))
  }

  function Print(rows: seq<Row>): string {
    if rows == [] then "" else Print(rows[..|rows| - 1]) + PrintRow(rows[|rows| - 1])
  }

  /** The loop that fills the buffer. */
  method PrintBuffer(rows: seq<Row>) returns (buffer: string)
    ensures buffer == Print(rows)
  {
    buffer := "";
    for i := 0 to |rows|
      invariant buffer == Print(rows[..i])
    {
      assert rows[..i + 1][..i] == rows[..i];
      buffer := buffer + PrintRow(rows[i]);
    }
    assert rows[..|rows|] == rows;
  }

  // ----- Reading -----

  /** Where the reader is: before a field, in a bare field, in a quoted field, or behind a
      quote that ends the field unless another quote follows. */
  datatype Place = Start | Bare | InQuotes | QuoteSeen

  /** Section 2, rules 1, 2 and 4 to 7 of RFC 4180, with a line feed for the line break. */
  function Read(s: string, place: Place, field: string, record: seq<string>, records: seq<seq<string>>): Option<seq<seq<string>>> {
    if s == [] then
      if place.InQuotes? then None
      else if place.Start? && record == [] then Some(records)
      else Some(records + [record + [field]])
    else if place.InQuotes? then
      if s[0] == '"' then Read(s[1..], QuoteSeen, field, record, records)
      else Read(s[1..], InQuotes, field + [s[0]], record, records)
    else if s[0] == ',' then Read(s[1..], Start, "", record + [field], records)
    else if s[0] == '\n' then Read(s[1..], Start, "", [], records + [record + [field]])
    else if s[0] == '"' then
      match place
      case Start => Read(s[1..], InQuotes, field, record, records)
      case QuoteSeen => Read(s[1..], InQuotes, field + "\"", record, records)
      case _ => None
    else if place.QuoteSeen? then None
    else Read(s[1..], Bare, field + [s[0]], record, records)
  }

  function ReadAll(s: string): Option<seq<seq<string>>> {
    Read(s, Start, "", [], [])
  }

  // ----- One field -----

  predicate Separator(c: char) {
    c == ',' || c == '\n'
  }

  /** The reader after the separator `c` that ends a field. */
  function AfterField(c: char, s: string, field: string, record: seq<string>, records: seq<seq<string>>): Option<seq<seq<string>>>
    requires Separator(c)
  {
    if c == ',' then Read(s, Start, "", record + [field], records)
    else Read(s, Start, "", [], records + [record + [field]])
  }

  /** The printed text stands for the field's content, whatever surrounds it. */
  ghost predicate ReadsAs(text: string, content: string) {
    forall c: char, s: string, record: seq<string>, records: seq<seq<string>> | Separator(c) ::
      Read(text + [c] + s, Start, "", record, records) == AfterField(c, s, content, record, records)
  }

  lemma {:induction false} ReadBare(
    text: UuidText, c: char, s: string, place: Place, field: string, record: seq<string>, records: seq<seq<string>>)
    requires Separator(c) && (place.Start? || place.Bare?)
    ensures Read(text + [c] + s, place, field, record, records) == AfterField(c, s, field + text, record, records)
    decreases |text|
  {
    var all := text + [c] + s;
    if text == [] {
      assert all[1..] == s && field + text == field;
    } else {
      assert UuidChar(all[0]);
      assert IsUuidText(text[1..]);
      assert all[1..] == text[1..] + [c] + s;
      assert field + text == (field + [text[0]]) + text[1..];
      ReadBare(text[1..], c, s, Bare, field + [text[0]], record, records);
    }
  }

  lemma {:induction false} ReadInQuotes(content: string, s: string, field: string, record: seq<string>, records: seq<seq<string>>)
    ensures Read(Doubled(content) + "\"" + s, InQuotes, field, record, records)
            == Read(s, QuoteSeen, field + content, record, records)
  {
    var all := Doubled(content) + "\"" + s;
    if content == [] {
      assert all[1..] == s && field + content == field;
    } else {
      var rest := Doubled(content[1..]) + "\"" + s;
      assert field + content == (field + [content[0]]) + content[1..];
      ReadInQuotes(content[1..], s, field + [content[0]], record, records);
      if content[0] == '"' {
        assert all[1..] == "\"" + rest && ("\"" + rest)[1..] == rest;
      } else {
        assert all == [content[0]] + rest && all[1..] == rest;
      }
    }
  }

  lemma EscapedReads(content: string)
    ensures ReadsAs(Escaped(content), content)
  {
    forall c: char, s: string, record: seq<string>, records: seq<seq<string>> | Separator(c)
      ensures Read(Escaped(content) + [c] + s, Start, "", record, records) == AfterField(c, s, content, record, records)
    {
      var all := Escaped(content) + [c] + s;
      var tail := [c] + s;
      assert all[1..] == Doubled(content) + "\"" + tail;
      ReadInQuotes(content, tail, "", record, records);
      assert "" + content == content && tail[1..] == s;
    }
  }

  lemma BareReads(text: UuidText)
    ensures ReadsAs(text, text)
  {
    forall c: char, s: string, record: seq<string>, records: seq<seq<string>> | Separator(c)
      ensures Read(text + [c] + s, Start, "", record, records) == AfterField(c, s, text, record, records)
    {
      ReadBare(text, c, s, Start, "", record, records);
      assert "" + text == text;
    }
  }

  predicate QuoteFree(s: string) {
    '"' !in s
  }

  lemma {:induction false} NothingDoubled(s: string)
    requires QuoteFree(s)
    ensures Doubled(s) == s
  {
    if s != [] {
      NothingDoubled(s[1..]);
    }
  }

  // ----- One record -----

  lemma {:induction false} LineReads(
    texts: seq<string>, contents: seq<string>, s: string, record: seq<string>, records: seq<seq<string>>)
    requires |texts| == |contents| > 0 && forall i | 0 <= i < |texts| :: ReadsAs(texts[i], contents[i])
    ensures Read(Line(texts) + s, Start, "", record, records) == Read(s, Start, "", [], records + [record + contents])
    decreases |texts|
  {
    hide Read, ReadsAs;
    var text, content := texts[0], contents[0];
    assert ReadsAs(text, content);
    if |texts| == 1 {
      assert Line(texts) + s == text + ['\n'] + s;
      ReadOneField(text, content, '\n', s, record, records);
      assert contents == [content];
    } else {
      var tail := Line(texts[1..]) + s;
      assert Line(texts) + s == text + [','] + tail;
      ReadOneField(text, content, ',', tail, record, records);
      LineReads(texts[1..], contents[1..], s, record + [content], records);
      assert record + [content] + contents[1..] == record + contents;
    }
  }

  lemma ReadOneField(text: string, content: string, c: char, s: string, record: seq<string>, records: seq<seq<string>>)
    requires Separator(c) && ReadsAs(text, content)
    ensures Read(text + [c] + s, Start, "", record, records) == AfterField(c, s, content, record, records)
  {
  }

  lemma RowReads(row: Row, s: string, records: seq<seq<string>>)
    requires QuoteFree(row.provider)
    ensures Read(PrintRow(row) + s, Start, "", [], records) == Read(s, Start, "", [], records + [Fields(row)])
  {
    hide Read, ReadsAs, Line, Doubled;
    NothingDoubled(row.provider);
    assert Quoted(row.provider) == Escaped(row.provider);
    EscapedReads(row.provider);
    BareReads(row.organization);
    BareReads(row.team);
    BareReads(row.project);
    BareReads(row.session);
    EscapedReads(row.eventType);
    EscapedReads(row.eventTime);
    EscapedReads(row.eventId);
    EscapedReads(row.key);
    EscapedReads(row.payload);
    EscapedReads(row.raw);
    EscapedReads(TurnText(row.turn));
    LineReads(Printed(row), Fields(row), s, [], records);
    assert [] + Fields(row) == Fields(row);
  }

  function AllFields(rows: seq<Row>): seq<seq<string>> {
    seq(|rows|, i requires 0 <= i < |rows| => Fields(rows[i]))
  }

  lemma {:induction false} RowsRead(rows: seq<Row>, s: string)
    requires forall row | row in rows :: QuoteFree(row.provider)
    ensures Read(Print(rows) + s, Start, "", [], []) == Read(s, Start, "", [], AllFields(rows))
    decreases |rows|
  {
    hide Read, Fields, PrintRow;
    if rows == [] {
      assert Print(rows) + s == s;
    } else {
      var n := |rows| - 1;
      var line := PrintRow(rows[n]);
      assert Print(rows) + s == Print(rows[..n]) + (line + s);
      RowsRead(rows[..n], line + s);
      RowReads(rows[n], s, AllFields(rows[..n]));
      assert AllFields(rows) == AllFields(rows[..n]) + [Fields(rows[n])];
    }
  }

  /** Reading the printed buffer gives the rows back, for all contents of the escaped fields. */
  lemma PrintedRowsRead(rows: seq<Row>)
    requires forall row | row in rows :: QuoteFree(row.provider)
    ensures ReadAll(Print(rows)) == Some(AllFields(rows))
  {
    RowsRead(rows, "");
    assert Print(rows) + "" == Print(rows);
  }

  // ----- A provider with a quote -----

  /** The reader never takes back a record or a field. */
  lemma {:induction false} ReadOnlyAdds(
    s: string, place: Place, field: string, record: seq<string>, records: seq<seq<string>>, out: seq<seq<string>>)
    requires Read(s, place, field, record, records) == Some(out)
    ensures records <= out
    ensures record != [] ==> |out| > |records| && record <= out[|records|]
    decreases |s|
  {
    if s == [] {
    } else if !place.InQuotes? && s[0] == ',' {
      ReadOnlyAdds(s[1..], Start, "", record + [field], records, out);
    } else if !place.InQuotes? && s[0] == '\n' {
      ReadOnlyAdds(s[1..], Start, "", [], records + [record + [field]], out);
      assert out[|records|] == record + [field];
    } else if s[0] == '"' {
      if place.InQuotes? {
        ReadOnlyAdds(s[1..], QuoteSeen, field, record, records, out);
      } else if place.Start? {
        ReadOnlyAdds(s[1..], InQuotes, field, record, records, out);
      } else {
        ReadOnlyAdds(s[1..], InQuotes, field + "\"", record, records, out);
      }
    } else {
      ReadOnlyAdds(s[1..], if place.InQuotes? then InQuotes else Bare, field + [s[0]], record, records, out);
    }
  }

  /** The text at which the reader stands inside quotes, or behind a quote, begins like this
      when it still reads `v` into the field. */
  predicate BeginsWith(s: string, place: Place, v: string) {
    if place.InQuotes? then Doubled(v) + "\"" <= s
    else v == "" || (v[0] == '"' && "\"" + Doubled(v[1..]) + "\"" <= s)
  }

  lemma DoubledCons(c: char, u: string)
    ensures Doubled([c] + u) + "\"" == (if c == '"' then "\"\"" else [c]) + (Doubled(u) + "\"")
  {
    assert ([c] + u)[1..] == u;
  }

  lemma Unshift(s: string, x: string)
    requires s != [] && x <= s[1..]
    ensures [s[0]] + x <= s
  {
    assert s == [s[0]] + s[1..];
  }

  /** One step further inside quotes, or behind a quote. */
  lemma BeginsOneBefore(s: string, place: Place, u: string)
    requires s != [] && (place.InQuotes? || (place.QuoteSeen? && s[0] == '"'))
    requires BeginsWith(s[1..], if place.InQuotes? && s[0] == '"' then QuoteSeen else InQuotes, u)
    ensures BeginsWith(s, place, if place.InQuotes? && s[0] == '"' then u else [s[0]] + u)
  {
    if place.InQuotes? && s[0] == '"' {
      if u != "" {
        DoubledCons('"', u[1..]);
        assert u == ['"'] + u[1..];
        assert Doubled(u) + "\"" == "\"" + ("\"" + Doubled(u[1..]) + "\"");
        Unshift(s, "\"" + Doubled(u[1..]) + "\"");
      }
    } else {
      DoubledCons(s[0], u);
      Unshift(s, Doubled(u) + "\"");
      assert ([s[0]] + u)[1..] == u;
      assert "\"" + Doubled(u) + "\"" == "\"" + (Doubled(u) + "\"");
    }
  }

  /** What a quoted field can read as: its doubled content and a closing quote are in the text. */
  lemma {:induction false} QuotedValue(
    s: string, place: Place, field: string, record: seq<string>, records: seq<seq<string>>, out: seq<seq<string>>)
    returns (v: string)
    requires Read(s, place, field, record, records) == Some(out) && (place.InQuotes? || place.QuoteSeen?)
    ensures |out| > |records| && |out[|records|]| > |record| && out[|records|][|record|] == field + v
    ensures BeginsWith(s, place, v)
    decreases |s|
  {
    hide BeginsWith;
    if place.InQuotes? || (s != [] && s[0] == '"') {
      var closing := place.InQuotes? && s[0] == '"';
      var field' := if closing then field else field + [s[0]];
      var u := QuotedValue(s[1..], if closing then QuoteSeen else InQuotes, field', record, records, out);
      v := if closing then u else [s[0]] + u;
      BeginsOneBefore(s, place, u);
      assert field + ([s[0]] + u) == field + [s[0]] + u;
    } else {
      v := "";
      EndsField(s, field, record, records, out);
      assert field + v == field;
      assert BeginsWith(s, QuoteSeen, "") by {
        NothingMore(s);
      }
    }
  }

  lemma NothingMore(s: string)
    ensures BeginsWith(s, QuoteSeen, "")
  {
  }

  lemma EndsField(s: string, field: string, record: seq<string>, records: seq<seq<string>>, out: seq<seq<string>>)
    requires Read(s, QuoteSeen, field, record, records) == Some(out) && (s == [] || s[0] != '"')
    ensures |out| > |records| && |out[|records|]| > |record| && out[|records|][|record|] == field
  {
    if s != [] && s[0] == ',' {
      ReadOnlyAdds(s[1..], Start, "", record + [field], records, out);
      assert (record + [field])[|record|] == field;
    } else if s != [] {
      ReadOnlyAdds(s[1..], Start, "", [], records + [record + [field]], out);
      assert (records + [record + [field]])[|records|] == record + [field];
    }
  }

  function Quotes(n: nat): string {
    if n == 0 then "" else "\"" + Quotes(n - 1)
  }

  lemma Strip(c: char, x: string, y: string)
    ensures [c] + x <= [c] + y <==> x <= y
  {
    assert ([c] + x)[1..] == x && ([c] + y)[1..] == y;
    if x <= y {
      assert [c] + y == [c] + x + y[|x|..];
    }
    if [c] + x <= [c] + y {
      assert y == x + ([c] + y)[|x| + 1..];
    }
  }

  lemma NoFitAtEnd(n: nat, tail: string)
    requires n >= 1
    ensures !(Quotes(n) + Doubled("") + "\"" <= "\"," + tail)
  {
    var x, y := Quotes(n) + Doubled("") + "\"", "\"," + tail;
    assert Quotes(n) == "\"" + Quotes(n - 1);
    assert x == "\"" + (Quotes(n - 1) + "\"");
    SecondQuote(n - 1);
    assert |x| >= 2 && x[1] == '"' && y[1] == ',';
  }

  lemma Shift(n: nat, p: string, tail: string)
    requires p != "" && p[0] == '"'
    ensures Quotes(n) + Doubled(p) + "\"" == ['"'] + (Quotes(n + 1) + Doubled(p[1..]) + "\"")
    ensures p + "\"," + tail == ['"'] + (p[1..] + "\"," + tail)
  {
    var quotes, d := Quotes(n), Doubled(p[1..]);
    assert Quotes(n + 1) == "\"" + quotes && Doubled(p) == "\"\"" + d;
    QuotesMove(n);
    hide Doubled, Quotes;
    TwoQuotesMove(quotes);
    Regroup(quotes, "\"\"", d, "\"");
    Regroup("\"", "\"" + quotes, d, "\"");
    assert p == ['"'] + p[1..];
  }

  lemma TwoQuotesMove(quotes: string)
    requires quotes + "\"" == "\"" + quotes
    ensures quotes + "\"\"" == "\"" + ("\"" + quotes)
  {
    assert quotes + "\"\"" == (quotes + "\"") + "\"";
  }

  lemma Regroup(a: string, b: string, c: string, d: string)
    ensures a + (b + c) + d == (a + b) + (c + d) == a + ((b + c) + d)
  {
  }

  /** The doubled text, behind at least one quote more, does not fit the plain text. */
  lemma {:induction false} NoFit(n: nat, p: string, tail: string)
    requires n >= 1
    ensures !(Quotes(n) + Doubled(p) + "\"" <= p + "\"," + tail)
    decreases |p|
  {
    hide Doubled, Quotes;
    if p == "" {
      NoFitAtEnd(n, tail);
      assert "" + "\"," + tail == "\"," + tail;
    } else if p[0] == '"' {
      NoFit(n + 1, p[1..], tail);
      Shift(n, p, tail);
      Strip('"', Quotes(n + 1) + Doubled(p[1..]) + "\"", p[1..] + "\"," + tail);
    } else {
      FirstQuoteOf(n, Doubled(p) + "\"");
      assert Quotes(n) + Doubled(p) + "\"" == Quotes(n) + (Doubled(p) + "\"");
      assert (p + "\"," + tail)[0] == p[0];
    }
  }

  lemma FirstQuoteOf(n: nat, s: string)
    requires n >= 1
    ensures (Quotes(n) + s)[0] == '"'
  {
  }

  lemma SecondQuote(n: nat)
    ensures |Quotes(n) + "\""| >= 1 && (Quotes(n) + "\"")[0] == '"'
  {
  }

  lemma {:induction false} QuotesMove(n: nat)
    ensures Quotes(n) + "\"" == "\"" + Quotes(n)
  {
    if n > 0 {
      QuotesMove(n - 1);
    }
  }

  lemma {:induction false} QuoteDoesNotFit(p: string, tail: string)
    requires !QuoteFree(p)
    ensures !(Doubled(p) + "\"" <= p + "\"," + tail)
  {
    hide Doubled, Quotes;
    assert p == [p[0]] + p[1..];
    if p[0] == '"' {
      NoFit(1, p[1..], tail);
      Shift(0, p, tail);
      NoQuotes(Doubled(p));
      Strip('"', Quotes(1) + Doubled(p[1..]) + "\"", p[1..] + "\"," + tail);
    } else {
      QuoteDoesNotFit(p[1..], tail);
      DoubledCons(p[0], p[1..]);
      assert p + "\"," + tail == [p[0]] + (p[1..] + "\"," + tail);
      Strip(p[0], Doubled(p[1..]) + "\"", p[1..] + "\"," + tail);
    }
  }

  lemma NoQuotes(s: string)
    ensures Quotes(0) + s + "\"" == s + "\""
  {
    assert Quotes(0) + s == s;
  }

  lemma BadFieldIsLost(p: string, tail: string, record: seq<string>, records: seq<seq<string>>, out: seq<seq<string>>)
    requires !QuoteFree(p) && Read(Quoted(p) + "," + tail, Start, "", record, records) == Some(out)
    ensures |out| > |records| && |out[|records|]| > |record| && out[|records|][|record|] != p
  {
    var all, quoted := Quoted(p) + "," + tail, p + "\"," + tail;
    assert all[0] == '"' && all[1..] == quoted;
    hide Doubled, QuoteFree;
    assert Read(all, Start, "", record, records) == Read(quoted, InQuotes, "", record, records);
    var v := QuotedValue(quoted, InQuotes, "", record, records, out);
    QuoteDoesNotFit(p, tail);
    assert "" + v == v;
  }

  lemma SkipField(text: UuidText, texts: seq<string>, s: string, record: seq<string>, records: seq<seq<string>>)
    requires texts != []
    ensures Read(Line([text] + texts) + s, Start, "", record, records)
            == Read(Line(texts) + s, Start, "", record + [text], records)
  {
    hide Read;
    BareReads(text);
    assert ([text] + texts)[1..] == texts;
    assert Line([text] + texts) + s == text + [','] + (Line(texts) + s);
    ReadOneField(text, text, ',', Line(texts) + s, record, records);
  }

  lemma SkipIds(a: UuidText, b: UuidText, c: UuidText, d: UuidText, texts: seq<string>, s: string, records: seq<seq<string>>)
    requires texts != []
    ensures Read(Line([a, b, c, d] + texts) + s, Start, "", [], records)
            == Read(Line(texts) + s, Start, "", [a, b, c, d], records)
  {
    hide *;
    SkipField(d, texts, s, [a, b, c], records);
    SkipField(c, [d] + texts, s, [a, b], records);
    SkipField(b, [c] + ([d] + texts), s, [a], records);
    SkipField(a, [b] + ([c] + ([d] + texts)), s, [], records);
    assert [a] + ([b] + ([c] + ([d] + texts))) == [a, b, c, d] + texts;
    assert [] + [a] == [a] && [a] + [b] == [a, b] && [a, b] + [c] == [a, b, c] && [a, b, c] + [d] == [a, b, c, d];
  }

  lemma PrintRowSplits(row: Row, s: string) returns (tail: string)
    ensures Printed(row)[4..] != [] && Line(Printed(row)[4..]) + s == Quoted(row.provider) + "," + tail
  {
    var texts := Printed(row)[4..];
    hide Printed, Quoted;
    assert texts[0] == Quoted(row.provider) && |texts| > 1 by {
      ProviderIsFifth(row);
    }
    tail := Line(texts[1..]) + s;
  }

  lemma ProviderIsFifth(row: Row)
    ensures |Printed(row)| == 12 && Printed(row)[4] == Quoted(row.provider)
    ensures Printed(row) == [row.organization, row.team, row.project, row.session] + Printed(row)[4..]
  {
  }

  /** A row whose provider has a quote is not read back. */
  lemma BadRowIsLost(row: Row, s: string, records: seq<seq<string>>, out: seq<seq<string>>)
    requires !QuoteFree(row.provider)
    requires Read(PrintRow(row) + s, Start, "", [], records) == Some(out)
    ensures |out| > |records| && out[|records|] != Fields(row)
  {
    hide Read, Line, Printed, Quoted, QuoteFree;
    var ids := [row.organization, row.team, row.project, row.session];
    ProviderIsFifth(row);
    var tail := PrintRowSplits(row, s);
    SkipIds(row.organization, row.team, row.project, row.session, Printed(row)[4..], s, records);
    BadFieldIsLost(row.provider, tail, ids, records, out);
    assert Fields(row)[4] == row.provider;
  }

  lemma {:induction false} PrintSplits(rows: seq<Row>, i: nat) returns (rest: string)
    requires i < |rows|
    ensures Print(rows) == Print(rows[..i]) + (PrintRow(rows[i]) + rest)
    decreases |rows|
  {
    hide PrintRow;
    var n := |rows| - 1;
    if i == n {
      rest := "";
      assert PrintRow(rows[n]) + "" == PrintRow(rows[n]);
    } else {
      var inner := PrintSplits(rows[..n], i);
      assert rows[..n][..i] == rows[..i];
      rest := inner + PrintRow(rows[n]);
      assert Print(rows) == Print(rows[..i]) + (PrintRow(rows[i]) + inner) + PrintRow(rows[n]);
    }
  }

  lemma {:induction false} FirstQuote(rows: seq<Row>) returns (i: nat)
    requires exists row :: row in rows && !QuoteFree(row.provider)
    ensures i < |rows| && !QuoteFree(rows[i].provider) && forall row | row in rows[..i] :: QuoteFree(row.provider)
    decreases |rows|
  {
    var n := |rows| - 1;
    if forall row | row in rows[..n] :: QuoteFree(row.provider) {
      i := n;
      assert rows == rows[..n] + [rows[n]];
    } else {
      i := FirstQuote(rows[..n]);
      assert rows[..n][..i] == rows[..i];
    }
  }

  /** The fields are read back if and only if no provider has a quote. */
  lemma FieldsRoundTripIff(rows: seq<Row>)
    ensures ReadAll(Print(rows)) == Some(AllFields(rows)) <==> forall row | row in rows :: QuoteFree(row.provider)
  {
    hide Read, PrintRow, Print, Fields, QuoteFree;
    if forall row | row in rows :: QuoteFree(row.provider) {
      PrintedRowsRead(rows);
    } else {
      var i := FirstQuote(rows);
      var rest := PrintSplits(rows, i);
      RowsRead(rows[..i], PrintRow(rows[i]) + rest);
      var out := ReadAll(Print(rows));
      if out.Some? {
        BadRowIsLost(rows[i], rest, AllFields(rows[..i]), out.value);
      }
    }
  }

  // ----- Rows -----

  /** The row the merge stores: `nullif(turn_id, '')`. */
  function Parsed(fields: seq<string>): Option<Row> {
    if |fields| == 12 && forall i | 0 <= i < 4 :: IsUuidText(fields[i]) then
      Some(Row(fields[0], fields[1], fields[2], fields[3], fields[4], fields[5], fields[6], fields[7], fields[8],
               fields[9], fields[10], if fields[11] == "" then None else Some(fields[11])))
    else None
  }

  function ParsedAll(records: seq<seq<string>>): Option<seq<Row>> {
    if records == [] then Some([])
    else
      var row, rows := Parsed(records[0]), ParsedAll(records[1..]);
      if row.Some? && rows.Some? then Some([row.value] + rows.value) else None
  }

  /** The table's rows for a printed buffer. */
  function Decode(s: string): Option<seq<Row>> {
    match ReadAll(s) case Some(records) => ParsedAll(records) case None => None
  }

  /** An empty turn id is stored as absent. */
  function Normal(row: Row): Row {
    if row.turn == Some("") then row.(turn := None) else row
  }

  function NormalAll(rows: seq<Row>): seq<Row> {
    seq(|rows|, i requires 0 <= i < |rows| => Normal(rows[i]))
  }

  lemma ParsedFields(row: Row)
    ensures Parsed(Fields(row)) == Some(Normal(row))
  {
    var f := Fields(row);
    forall i | 0 <= i < 4
      ensures IsUuidText(f[i])
    {
    }
  }

  lemma FieldsOfParsed(fields: seq<string>)
    requires Parsed(fields).Some?
    ensures Fields(Parsed(fields).value) == fields
  {
  }

  lemma {:induction false} ParsedAllFields(rows: seq<Row>)
    ensures ParsedAll(AllFields(rows)) == Some(NormalAll(rows))
  {
    hide Parsed, Fields, Normal;
    if rows == [] {
      assert NormalAll(rows) == [];
    } else {
      ParsedFields(rows[0]);
      ParsedAllFields(rows[1..]);
      assert AllFields(rows) == [Fields(rows[0])] + AllFields(rows[1..]);
      assert AllFields(rows)[1..] == AllFields(rows[1..]);
      assert NormalAll(rows) == [Normal(rows[0])] + NormalAll(rows[1..]);
    }
  }

  lemma {:induction false} AllFieldsOfParsed(records: seq<seq<string>>)
    requires ParsedAll(records).Some?
    ensures AllFields(ParsedAll(records).value) == records
  {
    hide Parsed, Fields;
    if records != [] {
      FieldsOfParsed(records[0]);
      AllFieldsOfParsed(records[1..]);
      var row, rows := Parsed(records[0]).value, ParsedAll(records[1..]).value;
      assert AllFields([row] + rows) == [Fields(row)] + AllFields(rows);
    }
  }

  /** The rows themselves come back, for all contents, if and only if no provider has a quote
      and no turn id is present but empty. */
  lemma RoundTripIff(rows: seq<Row>)
    ensures Decode(Print(rows)) == Some(rows)
            <==> forall row | row in rows :: QuoteFree(row.provider) && row.turn != Some("")
  {
    hide Read, PrintRow, Print, Fields, QuoteFree, ParsedAll;
    FieldsRoundTripIff(rows);
    ParsedAllFields(rows);
    var normal := NormalAll(rows);
    if forall row | row in rows :: QuoteFree(row.provider) && row.turn != Some("") {
      assert normal == rows;
    } else if forall row | row in rows :: QuoteFree(row.provider) {
      var i :| 0 <= i < |rows| && rows[i].turn == Some("");
      assert normal[i] != rows[i];
    } else if Decode(Print(rows)) == Some(rows) {
      AllFieldsOfParsed(ReadAll(Print(rows)).value);
    }
  }

  /** A provider that is a single quote is not read back, and an empty turn id comes back absent. */
  lemma QuoteAndEmptyTurnAreLost(row: Row)
    ensures var quoted := row.(provider := "\""); Decode(Print([quoted])) != Some([quoted])
    ensures var empty := row.(provider := "codex", turn := Some("")); Decode(Print([empty])) != Some([empty])
  {
    hide Decode, Print;
    var quoted, empty := row.(provider := "\""), row.(provider := "codex", turn := Some(""));
    RoundTripIff([quoted]);
    RoundTripIff([empty]);
    assert quoted in [quoted] && empty in [empty];
    assert quoted.provider[0] == '"';
  }

  // ----- What the API lets through -----

  predicate ProviderChar(c: char) {
    'a' <= c <= 'z' || 'A' <= c <= 'Z' || '0' <= c <= '9' || c == '-' || c == '_' || c == '.'
  }

  /** The provider id the API stores, if it accepts it. */
  function NormalizeProviderId(provider: string): Option<string> {
    var normalized := LowerAll(Trim(provider));
    if normalized == "" || |normalized| > 64 || exists i :: 0 <= i < |normalized| && !ProviderChar(normalized[i]) then None
    else Some(normalized)
  }

  lemma ProviderIsNormal(id: string)
    requires id != "" && |id| <= 64 && forall i | 0 <= i < |id| :: ProviderChar(id[i]) && Lower(id[i]) == id[i]
    ensures NormalizeProviderId(id) == Some(id)
  {
    assert TrimStart(id) == id && TrimEnd(id) == id;
    assert LowerAll(id) == id;
  }

  /** Every accepted provider id is quote-free, and normalizing it again changes nothing. */
  lemma AcceptedProvidersAreQuoteFree(provider: string)
    requires NormalizeProviderId(provider).Some?
    ensures var id := NormalizeProviderId(provider).value;
            && QuoteFree(id) && 0 < |id| <= 64 && NormalizeProviderId(id) == Some(id)
  {
    var trimmed := Trim(provider);
    var id := LowerAll(trimmed);
    forall i | 0 <= i < |id|
      ensures ProviderChar(id[i]) && Lower(id[i]) == id[i] && id[i] != '"'
    {
      LowerOnce(trimmed[i]);
    }
    ProviderIsNormal(id);
  }

  lemma NormalTurn(row: Row)
    requires Normal(row) == row
    ensures row.turn != Some("")
  {
  }

  /** Rows that came through the API and the turn-id encoding always round-trip. */
  lemma ApiRowsRoundTrip(rows: seq<Row>, given: seq<string>)
    requires |given| == |rows| && forall i | 0 <= i < |rows| :: NormalizeProviderId(given[i]) == Some(rows[i].provider)
    requires forall i | 0 <= i < |rows| :: Normal(rows[i]) == rows[i]
    ensures Decode(Print(rows)) == Some(rows)
  {
    hide Decode, Print, NormalizeProviderId, QuoteFree;
    forall row | row in rows
      ensures QuoteFree(row.provider) && row.turn != Some("")
    {
      var i :| 0 <= i < |rows| && rows[i] == row;
      AcceptedProvidersAreQuoteFree(given[i]);
      NormalTurn(row);
    }
    RoundTripIff(rows);
  }
}
