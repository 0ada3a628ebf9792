/** The CSV reader (csvstream.h): a character automaton over an input stream. */
module Csv {
  datatype State = Begin | Quoted | QuotedEscaped | Unquoted | UnquotedEscaped | End

  /** The automaton and the fields read so far; the last one is still growing. */
  datatype Scan = Scan(state: State, data: seq<string>)

  const START := Scan(Begin, [""])

  function Grow(data: seq<string>, c: char): (d: seq<string>)
    requires data != []
    ensures |d| == |data|
  {
    data[..|data| - 1] + [data[|data| - 1] + [c]]
  }

  /** One character outside quotes. */
  function FeedUnquoted(s: Scan, c: char, delimiter: char): (s': Scan)
    requires s.data != []
    ensures s'.data != [] && s'.state != Begin
  {
    if c == '"' then s.(state := Quoted)
    else if c == '\\' then Scan(UnquotedEscaped, Grow(s.data, c))
    else if c == delimiter then Scan(Unquoted, s.data + [""])
    else if c == '\n' || c == '\r' then s.(state := End)
    else Scan(Unquoted, Grow(s.data, c))
  }

  /** One character, in a state other than the end of the line. */
  function Feed(s: Scan, c: char, delimiter: char): (s': Scan)
    requires s.state != End && s.data != []
    ensures s'.data != [] && s'.state != Begin
  {
    match s.state
    case Begin => FeedUnquoted(s, c, delimiter)
    case Unquoted => FeedUnquoted(s, c, delimiter)
    case UnquotedEscaped => Scan(Unquoted, Grow(s.data, c))
    case Quoted =>
      if c == '"' then s.(state := Unquoted)
      else if c == '\\' then Scan(QuotedEscaped, Grow(s.data, c))
      else Scan(Quoted, Grow(s.data, c))
    case QuotedEscaped => Scan(Quoted, Grow(s.data, c))
  }

  /** Reading on from `s`: the automaton at the end of the line, and what is left of the input. */
  function Run(rest: string, s: Scan, delimiter: char): (r: (Scan, string))
    requires s.data != []
    ensures r.0.data != [] && |r.1| <= |rest|
    ensures s.state != End && rest != "" ==> |r.1| < |rest| && r.0.state != Begin
    ensures rest == "" ==> r == (s, "")
  {
    if rest == "" then (s, rest)
    else if s.state == End then (s, if rest[0] == '\n' then rest[1..] else rest)
    else Run(rest[1..], Feed(s, rest[0], delimiter), delimiter)
  }

  lemma RunOne(rest: string, s: Scan, delimiter: char)
    requires s.data != [] && rest != ""
    ensures s.state != End ==> Run(rest, s, delimiter) == Run(rest[1..], Feed(s, rest[0], delimiter), delimiter)
    ensures s.state == End ==> Run(rest, s, delimiter) == (s, if rest[0] == '\n' then rest[1..] else rest)
  {
  }

  // ----- The stream -----

  /** An input stream over `text`: reading past its end sets the fail bit until it is cleared. */
  class InputStream {
    const text: string
    var position: nat
    var failed: bool

    predicate Valid()
      reads this
    {
      position <= |text|
    }

    /** What has not been read yet. */
    function Rest(): string
      requires Valid()
      reads this
    {
      text[position..]
    }

    constructor (text: string)
      ensures Valid() && this.text == text && Rest() == text && !failed
    {
      this.text := text;
      position := 0;
      failed := false;
    }

    method Get() returns (ok: bool, c: char)
      requires Valid()
      modifies this
      ensures Valid() && ok == !failed == (!old(failed) && old(Rest()) != "")
      ensures ok ==> c == old(Rest())[0] && Rest() == old(Rest())[1..] && position == old(position) + 1
      ensures !ok ==> position == old(position)
    {
      failed := failed || position == |text|;
      ok := !failed;
      c := '\0';
      if ok {
        c := text[position];
        position := position + 1;
      }
    }

    method Unget()
      requires Valid() && 0 < position && !failed
      modifies this
      ensures Valid() && position == old(position) - 1 && !failed
    {
      position := position - 1;
    }

    method Clear()
      requires Valid()
      modifies this
      ensures Valid() && position == old(position) && !failed
    {
      failed := false;
    }
  }

  /** Read and tokenize one line. */
  method ReadCsvLine(input: InputStream, delimiter: char) returns (ok: bool, data: seq<string>)
    requires input.Valid()
    modifies input
    ensures input.Valid() && ok == !input.failed == (!old(input.failed) && old(input.Rest()) != "")
    ensures ok ==> data == Run(old(input.Rest()), START, delimiter).0.data
    ensures ok ==> input.Rest() == Run(old(input.Rest()), START, delimiter).1
    ensures ok ==> old(input.position) < input.position
    ensures !ok ==> input.position == old(input.position) && data == [""]
  {
    hide Feed, Run;
    var s := START;
    ghost var whole := input.Rest();
    while true
      invariant input.Valid() && s.data != []
      invariant Run(input.Rest(), s, delimiter) == Run(whole, START, delimiter)
      invariant s.state == Begin ==>
        s == START && input.position == old(input.position) && input.failed == old(input.failed)
      invariant s.state != Begin ==> !input.failed && !old(input.failed) && old(input.position) < input.position
      decreases |input.text| - input.position
    {
      ghost var rest := input.Rest();
      var got, c := input.Get();
      if !got {
        break;
      }
      RunOne(rest, s, delimiter);
      if s.state == End {
        if c != '\n' {
          input.Unget();
          assert input.Rest() == rest;
        }
        break;
      }
      s := Feed(s, c, delimiter);
    }
    if s.state != Begin {
      input.Clear();
    }
    ok, data := !input.failed, s.data;
  }

  // ----- Whole inputs -----

  /** All rows of an input, line after line. */
  function ReadAll(input: string, delimiter: char): (rows: seq<seq<string>>)
    decreases |input|
  {
    if input == "" then []
    else
      var (s, rest) := Run(input, START, delimiter);
      [s.data] + ReadAll(rest, delimiter)
  }

  /** The part of the input each successful read consumes. */
  function Pieces(input: string, delimiter: char): (pieces: seq<string>)
    decreases |input|
  {
    if input == "" then []
    else
      var rest := Run(input, START, delimiter).1;
      [input[..|input| - |rest|]] + Pieces(rest, delimiter)
  }

  function Join(pieces: seq<string>): string {
    if pieces == [] then "" else pieces[0] + Join(pieces[1..])
  }

  /** What is left is the end of what was given. */
  lemma {:induction false} RunLeavesSuffix(rest: string, s: Scan, delimiter: char)
    requires s.data != []
    ensures var left := Run(rest, s, delimiter).1; left == rest[|rest| - |left|..]
    decreases |rest|
  {
    if rest != "" && s.state != End {
      var left := Run(rest, s, delimiter).1;
      RunLeavesSuffix(rest[1..], Feed(s, rest[0], delimiter), delimiter);
      assert rest[1..][|rest| - 1 - |left|..] == rest[|rest| - |left|..];
    }
  }

  /** One piece for every row, none empty, and together they are the input. */
  lemma {:induction false} PiecesCover(input: string, delimiter: char)
    ensures |Pieces(input, delimiter)| == |ReadAll(input, delimiter)|
    ensures forall k :: 0 <= k < |Pieces(input, delimiter)| ==> Pieces(input, delimiter)[k] != ""
    ensures Join(Pieces(input, delimiter)) == input
    decreases |input|
  {
    if input != "" {
      var rest := Run(input, START, delimiter).1;
      var first := input[..|input| - |rest|];
      RunLeavesSuffix(input, START, delimiter);
      PiecesCover(rest, delimiter);
      assert Pieces(input, delimiter)[1..] == Pieces(rest, delimiter);
      assert input == first + rest;
    }
  }

  // ----- Printing -----

  /** How a piece of a field is written: between quotes, or as it is. */
  datatype Piece = Enclosed(text: string) | Plain(text: string)

  /** Quotes may open and close anywhere in a field. */
  type Field = seq<Piece>

  datatype LineEnd = Newline | Return | ReturnNewline

  /** A row and the way its line ends. */
  datatype Line = Line(row: seq<Field>, end: LineEnd)

  /** Every quote has a backslash before it, and no backslash is left dangling. */
  predicate Escaped(field: string) {
    if field == "" then true
    else if field[0] == '\\' then |field| >= 2 && Escaped(field[2..])
    else field[0] != '"' && Escaped(field[1..])
  }

  /** Outside quotes, the delimiter and line ends need a backslash too. */
  predicate EscapedPlain(field: string, delimiter: char) {
    if field == "" then true
    else if field[0] == '\\' then |field| >= 2 && EscapedPlain(field[2..], delimiter)
    else field[0] !in {'"', delimiter, '\n', '\r'} && EscapedPlain(field[1..], delimiter)
  }

  predicate PieceEscaped(piece: Piece, delimiter: char) {
    match piece
    case Enclosed(text) => Escaped(text)
    case Plain(text) => EscapedPlain(text, delimiter)
  }

  predicate WellEscaped(field: Field, delimiter: char) {
    forall i :: 0 <= i < |field| ==> PieceEscaped(field[i], delimiter)
  }

  function PrintPiece(piece: Piece): string {
    match piece
    case Enclosed(text) => ['"'] + text + ['"']
    case Plain(text) => text
  }

  function PrintField(field: Field): string {
    if field == [] then "" else PrintPiece(field[0]) + PrintField(field[1..])
  }

  /** What a field holds: its pieces without the quotes. */
  function FieldText(field: Field): string {
    if field == [] then "" else field[0].text + FieldText(field[1..])
  }

  function PrintFields(row: seq<Field>, delimiter: char): string
    requires row != []
  {
    if |row| == 1 then PrintField(row[0]) else PrintField(row[0]) + [delimiter] + PrintFields(row[1..], delimiter)
  }

  function EndChars(end: LineEnd): (s: string)
    ensures s != ""
  {
    match end
    case Newline => "\n"
    case Return => "\r"
    case ReturnNewline => "\r\n"
  }

  function PrintLine(line: Line, delimiter: char): (text: string)
    requires line.row != []
    ensures text != ""
  {
    PrintFields(line.row, delimiter) + EndChars(line.end)
  }

  function Print(lines: seq<Line>, delimiter: char): string
    requires forall k :: 0 <= k < |lines| ==> lines[k].row != []
  {
    if lines == [] then "" else PrintLine(lines[0], delimiter) + Print(lines[1..], delimiter)
  }

  function Texts(row: seq<Field>): (texts: seq<string>)
    ensures |texts| == |row|
  {
    seq(|row|, j requires 0 <= j < |row| => FieldText(row[j]))
  }

  function Rows(lines: seq<Line>): (rows: seq<seq<string>>)
    ensures |rows| == |lines|
  {
    seq(|lines|, k requires 0 <= k < |lines| => Texts(lines[k].row))
  }

  predicate GoodRow(row: seq<Field>, delimiter: char) {
    row != [] && forall j :: 0 <= j < |row| ==> WellEscaped(row[j], delimiter)
  }

  predicate GoodLines(lines: seq<Line>, delimiter: char) {
    forall k :: 0 <= k < |lines| ==> GoodRow(lines[k].row, delimiter)
  }

  /** The line begins with a line feed, which joins the end of the line before unless that is complete. */
  predicate Joins(end: LineEnd, line: Line, delimiter: char)
    requires line.row != []
  {
    end != ReturnNewline && PrintLine(line, delimiter)[0] == '\n'
  }

  /** Rows of well escaped fields, none of which joins the line end before. */
  predicate Printable(lines: seq<Line>, delimiter: char) {
    GoodLines(lines, delimiter) &&
    forall k :: 1 <= k < |lines| ==> !Joins(lines[k - 1].end, lines[k], delimiter)
  }

  /** A delimiter that cannot be mistaken for a quote, a backslash or the beginning of the line end. */
  predicate Distinct(delimiter: char, end: LineEnd) {
    delimiter != '"' && delimiter != '\\' && delimiter != EndChars(end)[0]
  }

  // ----- Reading back -----

  lemma RunSnoc(c: char, rest: string, s: Scan, delimiter: char)
    requires s.data != [] && s.state != End
    ensures Run([c] + rest, s, delimiter) == Run(rest, Feed(s, c, delimiter), delimiter)
  {
    assert ([c] + rest)[1..] == rest;
  }

  function Grown(s: State, done: seq<string>, last: string): Scan {
    Scan(s, done + [last])
  }

  lemma GrowLast(done: seq<string>, last: string, c: char)
    ensures Grow(done + [last], c) == done + [last + [c]]
  {
    assert (done + [last])[..|done + [last]| - 1] == done;
  }

  function Inside(quoted: bool): State {
    if quoted then Quoted else Unquoted
  }

  /** An ordinary character. */
  lemma ReadOrdinary(c: char, rest: string, quoted: bool, done: seq<string>, last: string, delimiter: char)
    requires c != '"' && c != '\\' && (quoted || c !in {delimiter, '\n', '\r'})
    ensures Run([c] + rest, Grown(Inside(quoted), done, last), delimiter)
         == Run(rest, Grown(Inside(quoted), done, last + [c]), delimiter)
  {
    hide Run;
    GrowLast(done, last, c);
    RunSnoc(c, rest, Grown(Inside(quoted), done, last), delimiter);
  }

  /** A backslash and the character after it. */
  lemma ReadEscape(d: char, rest: string, quoted: bool, done: seq<string>, last: string, delimiter: char)
    requires quoted || delimiter != '\\'
    ensures Run(['\\'] + ([d] + rest), Grown(Inside(quoted), done, last), delimiter)
         == Run(rest, Grown(Inside(quoted), done, last + ['\\'] + [d]), delimiter)
  {
    hide Run;
    GrowLast(done, last, '\\');
    GrowLast(done, last + ['\\'], d);
    RunSnoc('\\', [d] + rest, Grown(Inside(quoted), done, last), delimiter);
    RunSnoc(d, rest, Grown(if quoted then QuotedEscaped else UnquotedEscaped, done, last + ['\\']), delimiter);
  }

  /** An escaped field is taken as it stands, inside quotes or outside. */
  lemma {:induction false} ReadText(field: string, rest: string, quoted: bool, done: seq<string>, last: string,
                                    delimiter: char)
    requires if quoted then Escaped(field) else EscapedPlain(field, delimiter) && delimiter != '\\'
    ensures Run(field + rest, Grown(Inside(quoted), done, last), delimiter)
         == Run(rest, Grown(Inside(quoted), done, last + field), delimiter)
    decreases |field|
  {
    hide Run, Grown, Inside;
    if field == "" {
      assert "" + rest == rest && last + "" == last;
    } else if field[0] == '\\' {
      var d, more := field[1], field[2..];
      assert field + rest == ['\\'] + ([d] + (more + rest));
      ReadEscape(d, more + rest, quoted, done, last, delimiter);
      ReadText(more, rest, quoted, done, last + ['\\'] + [d], delimiter);
      assert last + ['\\'] + [d] + more == last + field;
    } else {
      var c, more := field[0], field[1..];
      assert field + rest == [c] + (more + rest);
      ReadOrdinary(c, more + rest, quoted, done, last, delimiter);
      ReadText(more, rest, quoted, done, last + [c], delimiter);
      assert last + [c] + more == last + field;
    }
  }

  lemma ReadPiece(piece: Piece, rest: string, done: seq<string>, last: string, delimiter: char)
    requires PieceEscaped(piece, delimiter) && delimiter != '\\'
    ensures Run(PrintPiece(piece) + rest, Grown(Unquoted, done, last), delimiter)
         == Run(rest, Grown(Unquoted, done, last + piece.text), delimiter)
  {
    hide Run, Escaped, EscapedPlain;
    var text := piece.text;
    match piece
    case Plain(_) =>
      ReadText(text, rest, false, done, last, delimiter);
    case Enclosed(_) =>
      assert PrintPiece(piece) + rest == ['"'] + (text + (['"'] + rest));
      RunSnoc('"', text + (['"'] + rest), Grown(Unquoted, done, last), delimiter);
      ReadText(text, ['"'] + rest, true, done, last, delimiter);
      RunSnoc('"', rest, Grown(Quoted, done, last + text), delimiter);
  }

  lemma {:induction false} ReadPieces(field: Field, rest: string, done: seq<string>, last: string, delimiter: char)
    requires WellEscaped(field, delimiter) && delimiter != '\\'
    ensures Run(PrintField(field) + rest, Grown(Unquoted, done, last), delimiter)
         == Run(rest, Grown(Unquoted, done, last + FieldText(field)), delimiter)
  {
    hide Run, Grown, PrintPiece, PieceEscaped;
    if field == [] {
      assert "" + rest == rest && last + "" == last;
    } else {
      var more := PrintField(field[1..]) + rest;
      assert PrintField(field) + rest == PrintPiece(field[0]) + more;
      ReadPiece(field[0], more, done, last, delimiter);
      ReadPieces(field[1..], rest, done, last + field[0].text, delimiter);
      assert last + field[0].text + FieldText(field[1..]) == last + FieldText(field);
    }
  }

  lemma ReadField(field: Field, rest: string, done: seq<string>, delimiter: char)
    requires WellEscaped(field, delimiter) && delimiter != '\\'
    ensures Run(PrintField(field) + rest, Grown(Unquoted, done, ""), delimiter)
         == Run(rest, Grown(Unquoted, done, FieldText(field)), delimiter)
  {
    hide Run, Grown, PrintField, FieldText, WellEscaped;
    ReadPieces(field, rest, done, "", delimiter);
    assert "" + FieldText(field) == FieldText(field);
  }

  lemma PrintSplit(row: seq<Field>, rest: string, delimiter: char, more: string)
    requires |row| > 1 && more == PrintFields(row[1..], delimiter) + rest
    ensures PrintFields(row, delimiter) + rest == PrintField(row[0]) + ([delimiter] + more)
  {
    hide PrintField;
  }

  /** A field and the delimiter after it. */
  lemma ReadDelimited(field: Field, more: string, done: seq<string>, delimiter: char)
    requires WellEscaped(field, delimiter) && delimiter != '"' && delimiter != '\\'
    ensures Run(PrintField(field) + ([delimiter] + more), Grown(Unquoted, done, ""), delimiter)
         == Run(more, Grown(Unquoted, done + [FieldText(field)], ""), delimiter)
  {
    hide Run, WellEscaped, PrintField;
    ReadField(field, [delimiter] + more, done, delimiter);
    RunSnoc(delimiter, more, Grown(Unquoted, done, FieldText(field)), delimiter);
  }

  lemma {:induction false} ReadFields(row: seq<Field>, rest: string, done: seq<string>, delimiter: char)
    requires GoodRow(row, delimiter) && delimiter != '"' && delimiter != '\\'
    ensures Run(PrintFields(row, delimiter) + rest, Grown(Unquoted, done, ""), delimiter)
         == Run(rest, Scan(Unquoted, done + Texts(row)), delimiter)
    decreases |row|
  {
    hide Run, WellEscaped, PrintField;
    if |row| == 1 {
      ReadField(row[0], rest, done, delimiter);
      assert done + Texts(row) == done + [FieldText(row[0])];
    } else {
      hide PrintFields, Grown;
      var more := PrintFields(row[1..], delimiter) + rest;
      PrintSplit(row, rest, delimiter, more);
      ReadDelimited(row[0], more, done, delimiter);
      ReadFields(row[1..], rest, done + [FieldText(row[0])], delimiter);
      assert done + [FieldText(row[0])] + Texts(row[1..]) == done + Texts(row);
    }
  }

  /** What is left after a line end: a line feed is taken too, unless the line end already has one after a return. */
  function AfterEnd(end: LineEnd, rest: string): string {
    if end != ReturnNewline && rest != "" && rest[0] == '\n' then rest[1..] else rest
  }

  /** The line end closes the row and is consumed, up to a following line feed. */
  lemma ReadEnd(end: LineEnd, rest: string, row: seq<string>, delimiter: char)
    requires row != [] && Distinct(delimiter, end)
    ensures Run(EndChars(end) + rest, Scan(Unquoted, row), delimiter) == (Scan(End, row), AfterEnd(end, rest))
  {
    var s := Scan(End, row);
    match end
    case Newline =>
      RunSnoc('\n', rest, Scan(Unquoted, row), delimiter);
    case Return =>
      RunSnoc('\r', rest, Scan(Unquoted, row), delimiter);
    case ReturnNewline =>
      assert "\r\n" + rest == ['\r'] + (['\n'] + rest) && (['\n'] + rest)[1..] == rest;
      RunSnoc('\r', ['\n'] + rest, Scan(Unquoted, row), delimiter);
      RunOne(['\n'] + rest, s, delimiter);
  }

  /** Before any character the automaton is as good as outside quotes. */
  lemma BeginIsUnquoted(text: string, delimiter: char)
    requires text != ""
    ensures Run(text, START, delimiter) == Run(text, Grown(Unquoted, [], ""), delimiter)
  {
    assert Grown(Unquoted, [], "") == Scan(Unquoted, [""]);
    assert Feed(START, text[0], delimiter) == Feed(Scan(Unquoted, [""]), text[0], delimiter);
    RunOne(text, START, delimiter);
    RunOne(text, Scan(Unquoted, [""]), delimiter);
    hide Run, Feed;
  }

  lemma ReadLine(line: Line, rest: string, delimiter: char)
    requires GoodRow(line.row, delimiter) && Distinct(delimiter, line.end)
    ensures Run(PrintLine(line, delimiter) + rest, START, delimiter)
         == (Scan(End, Texts(line.row)), AfterEnd(line.end, rest))
  {
    hide Run, WellEscaped, EndChars, PrintFields, Grown;
    var text := EndChars(line.end) + rest;
    assert PrintLine(line, delimiter) + rest == PrintFields(line.row, delimiter) + text;
    BeginIsUnquoted(PrintLine(line, delimiter) + rest, delimiter);
    ReadFields(line.row, text, [], delimiter);
    assert [] + Texts(line.row) == Texts(line.row);
    ReadEnd(line.end, rest, Texts(line.row), delimiter);
  }

  lemma PrintBegins(lines: seq<Line>, delimiter: char)
    requires lines != [] && GoodLines(lines, delimiter)
    ensures Print(lines, delimiter) != "" && Print(lines, delimiter)[0] == PrintLine(lines[0], delimiter)[0]
  {
    hide PrintLine, WellEscaped;
  }

  // ----- What is read back -----

  /** Lines without their first character, a line feed: a blank line is gone, another loses its empty first field. */
  function Joined(lines: seq<Line>): (rest: seq<Line>)
    requires lines != []
    ensures |lines| - 1 <= |rest| <= |lines|
  {
    if |lines[0].row| <= 1 then lines[1..] else [lines[0].(row := lines[0].row[1..])] + lines[1..]
  }

  /** The lines after the first as the reader finds them. */
  function Following(lines: seq<Line>, delimiter: char): (rest: seq<Line>)
    requires lines != [] && GoodLines(lines, delimiter)
    ensures |rest| < |lines|
  {
    if |lines| > 1 && Joins(lines[0].end, lines[1], delimiter) then Joined(lines[1..]) else lines[1..]
  }

  lemma PieceStart(piece: Piece, delimiter: char)
    requires PieceEscaped(piece, delimiter)
    ensures PrintPiece(piece) != "" ==> PrintPiece(piece)[0] != '\n'
  {
  }

  lemma {:induction false} FieldStart(field: Field, delimiter: char)
    requires WellEscaped(field, delimiter)
    ensures PrintField(field) != "" ==> PrintField(field)[0] != '\n'
  {
    if field != [] {
      assert PieceEscaped(field[0], delimiter);
      FieldStart(field[1..], delimiter);
      PieceStart(field[0], delimiter);
      hide PrintPiece, PieceEscaped;
      assert PrintPiece(field[0]) == "" ==> PrintField(field) == PrintField(field[1..]);
    }
  }

  lemma LineStart(line: Line, delimiter: char)
    requires line.row != [] && PrintField(line.row[0]) != ""
    ensures PrintLine(line, delimiter)[0] == PrintField(line.row[0])[0]
  {
    hide PrintField;
  }

  /** A field that begins a line with a line feed is bare and empty. */
  lemma BeginsWithNewline(line: Line, delimiter: char)
    requires GoodRow(line.row, delimiter) && Distinct(delimiter, line.end) && PrintLine(line, delimiter)[0] == '\n'
    ensures PrintField(line.row[0]) == ""
    ensures |line.row| == 1 ==> PrintLine(line, delimiter) == "\n"
    ensures |line.row| > 1 ==> PrintLine(line, delimiter)[1..] == PrintLine(line.(row := line.row[1..]), delimiter)
  {
    assert WellEscaped(line.row[0], delimiter);
    FieldStart(line.row[0], delimiter);
    if PrintField(line.row[0]) != "" {
      LineStart(line, delimiter);
    }
    if |line.row| > 1 {
      var more := PrintFields(line.row[1..], delimiter);
      assert PrintFields(line.row, delimiter) == [delimiter] + more;
      assert PrintLine(line, delimiter) == [delimiter] + (more + EndChars(line.end));
    } else {
      assert PrintLine(line, delimiter) == EndChars(line.end);
    }
  }

  lemma JoinedPrints(lines: seq<Line>, delimiter: char)
    requires lines != [] && GoodLines(lines, delimiter) && Distinct(delimiter, lines[0].end)
    requires PrintLine(lines[0], delimiter)[0] == '\n'
    ensures GoodLines(Joined(lines), delimiter)
    ensures Print(lines, delimiter)[1..] == Print(Joined(lines), delimiter)
  {
    hide WellEscaped, PrintLine, Distinct;
    BeginsWithNewline(lines[0], delimiter);
    var rest := Print(lines[1..], delimiter);
    assert Print(lines, delimiter)[1..] == PrintLine(lines[0], delimiter)[1..] + rest;
    if |lines[0].row| > 1 {
      var shorter := lines[0].(row := lines[0].row[1..]);
      assert Joined(lines) == [shorter] + lines[1..] && Joined(lines)[1..] == lines[1..];
    } else {
      assert "\n"[1..] == "" && "" + rest == rest;
    }
  }

  predicate AllDistinct(lines: seq<Line>, delimiter: char) {
    forall k :: 0 <= k < |lines| ==> Distinct(delimiter, lines[k].end)
  }

  lemma PrintNone(delimiter: char)
    ensures Print([], delimiter) == ""
  {
  }

  lemma PrintOne(lines: seq<Line>, delimiter: char)
    requires lines != [] && GoodLines(lines, delimiter)
    ensures Print(lines, delimiter) == PrintLine(lines[0], delimiter) + Print(lines[1..], delimiter)
  {
    hide PrintLine, WellEscaped;
  }

  /** One read takes the first row and leaves the following lines. */
  lemma ReadFirst(lines: seq<Line>, delimiter: char)
    requires lines != [] && GoodLines(lines, delimiter) && AllDistinct(lines, delimiter)
    ensures GoodLines(Following(lines, delimiter), delimiter) && AllDistinct(Following(lines, delimiter), delimiter)
    ensures Run(Print(lines, delimiter), START, delimiter)
         == (Scan(End, Texts(lines[0].row)), Print(Following(lines, delimiter), delimiter))
  {
    hide Run, WellEscaped, PrintLine, Distinct, Print, Texts;
    var more := lines[1..];
    assert GoodLines(more, delimiter) && AllDistinct(more, delimiter);
    PrintOne(lines, delimiter);
    ReadLine(lines[0], Print(more, delimiter), delimiter);
    if more == [] {
      assert Print(more, delimiter) == "" by { PrintNone(delimiter); }
    } else {
      PrintBegins(more, delimiter);
      if Joins(lines[0].end, more[0], delimiter) {
        JoinedPrints(more, delimiter);
      }
    }
  }

  /** The lines the reader sees: a line feed at the beginning of one may have joined the line end before. */
  function Seen(lines: seq<Line>, delimiter: char): (seen: seq<Line>)
    requires GoodLines(lines, delimiter) && AllDistinct(lines, delimiter)
    decreases |lines|
  {
    if lines == [] then []
    else
      ReadFirst(lines, delimiter);
      [lines[0]] + Seen(Following(lines, delimiter), delimiter)
  }

  lemma RowsOne(lines: seq<Line>)
    requires lines != []
    ensures Rows(lines) == [Texts(lines[0].row)] + Rows(lines[1..])
  {
    hide Texts;
  }

  /** Reading back yields the rows seen, whatever the line ends and wherever the blank lines. */
  lemma {:induction false} ReadsSeen(lines: seq<Line>, delimiter: char)
    requires GoodLines(lines, delimiter) && AllDistinct(lines, delimiter)
    ensures ReadAll(Print(lines, delimiter), delimiter) == Rows(Seen(lines, delimiter))
    decreases |lines|
  {
    if lines != [] {
      hide Run, WellEscaped, PrintLine, Distinct, Rows;
      PrintBegins(lines, delimiter);
      ReadFirst(lines, delimiter);
      RowsOne(Seen(lines, delimiter));
      ReadsSeen(Following(lines, delimiter), delimiter);
      hide Print;
      assert Seen(lines, delimiter)[1..] == Seen(Following(lines, delimiter), delimiter);
    }
  }

  /** What was printed is read back, row by row, and then the input is at its end. */
  lemma {:induction false} RoundTrip(lines: seq<Line>, delimiter: char)
    requires Printable(lines, delimiter) && AllDistinct(lines, delimiter)
    ensures ReadAll(Print(lines, delimiter), delimiter) == Rows(lines)
    decreases |lines|
  {
    if lines != [] {
      hide Run, WellEscaped, PrintLine, Distinct, Rows;
      PrintBegins(lines, delimiter);
      ReadFirst(lines, delimiter);
      RowsOne(lines);
      RoundTrip(lines[1..], delimiter);
    }
  }

  function FieldCount(lines: seq<Line>): nat {
    if lines == [] then 0 else |lines[0].row| + FieldCount(lines[1..])
  }

  lemma SeenNone(delimiter: char)
    ensures Seen([], delimiter) == []
  {
  }

  lemma PrintableNone(delimiter: char)
    ensures Printable([], delimiter)
  {
  }

  lemma SeenOne(lines: seq<Line>, delimiter: char)
    requires lines != [] && GoodLines(lines, delimiter) && AllDistinct(lines, delimiter)
    ensures GoodLines(Following(lines, delimiter), delimiter) && AllDistinct(Following(lines, delimiter), delimiter)
    ensures Seen(lines, delimiter) == [lines[0]] + Seen(Following(lines, delimiter), delimiter)
  {
    hide WellEscaped, PrintLine, Distinct, Print, Following;
    ReadFirst(lines, delimiter);
  }

  lemma CountOne(line: Line, lines: seq<Line>)
    ensures FieldCount([line] + lines) == |line.row| + FieldCount(lines)
  {
    assert ([line] + lines)[1..] == lines;
  }

  lemma JoinedCount(lines: seq<Line>)
    requires lines != [] && lines[0].row != []
    ensures FieldCount(Joined(lines)) == FieldCount(lines) - 1
  {
    if |lines[0].row| > 1 {
      assert Joined(lines)[1..] == lines[1..];
    }
  }

  lemma PrintableRest(lines: seq<Line>, delimiter: char)
    requires lines != [] && GoodLines(lines, delimiter) && Printable(lines[1..], delimiter)
    requires |lines| > 1 ==> !Joins(lines[0].end, lines[1], delimiter)
    ensures Printable(lines, delimiter)
  {
    hide WellEscaped, PrintLine;
    forall k | 1 <= k < |lines|
      ensures !Joins(lines[k - 1].end, lines[k], delimiter)
    {
      if k > 1 {
        assert lines[k - 1] == lines[1..][k - 2] && lines[k] == lines[1..][k - 1];
      }
    }
  }

  /** A field is lost wherever lines join. */
  lemma {:induction false} SeenCount(lines: seq<Line>, delimiter: char)
    requires GoodLines(lines, delimiter) && AllDistinct(lines, delimiter)
    ensures FieldCount(Seen(lines, delimiter)) <= FieldCount(lines)
    ensures !Printable(lines, delimiter) ==> FieldCount(Seen(lines, delimiter)) < FieldCount(lines)
    decreases |lines|
  {
    hide Seen, WellEscaped, PrintLine, Distinct, Print, FieldCount, Printable, Joined;
    if lines == [] {
      assert Seen(lines, delimiter) == [] by { SeenNone(delimiter); }
      PrintableNone(delimiter);
    } else {
      var next := Following(lines, delimiter);
      ReadFirst(lines, delimiter);
      SeenCount(next, delimiter);
      SeenOne(lines, delimiter);
      CountOne(lines[0], lines[1..]);
      CountOne(lines[0], Seen(next, delimiter));
      assert [lines[0]] + lines[1..] == lines;
      if |lines| > 1 && Joins(lines[0].end, lines[1], delimiter) {
        JoinedCount(lines[1..]);
      } else if !Printable(lines, delimiter) && Printable(next, delimiter) {
        PrintableRest(lines, delimiter);
      }
    }
  }

  lemma {:induction false} SameRowsSameCount(a: seq<Line>, b: seq<Line>)
    requires Rows(a) == Rows(b)
    ensures FieldCount(a) == FieldCount(b)
  {
    assert |Rows(a)| == |a| && |Rows(b)| == |b|;
    if a != [] {
      RowsOne(a);
      RowsOne(b);
      var first, rest := Texts(a[0].row), Rows(a[1..]);
      assert Rows(a) == [first] + rest == [Texts(b[0].row)] + Rows(b[1..]);
      assert rest == Rows(a)[1..] == Rows(b[1..]);
      assert first == Rows(a)[0] == Texts(b[0].row);
      assert |a[0].row| == |first| == |b[0].row|;
      SameRowsSameCount(a[1..], b[1..]);
    }
  }

  /** Given well escaped fields and a distinct delimiter, what is printed is read back exactly if no lines join. */
  lemma ReadsBackExactly(lines: seq<Line>, delimiter: char)
    requires GoodLines(lines, delimiter) && AllDistinct(lines, delimiter)
    ensures ReadAll(Print(lines, delimiter), delimiter) == Rows(lines) <==>
            forall k :: 1 <= k < |lines| ==>
              lines[k - 1].end == ReturnNewline || PrintLine(lines[k], delimiter)[0] != '\n'
  {
    hide Seen, ReadAll, Print, Rows, FieldCount, WellEscaped, Distinct, PrintLine;
    if Printable(lines, delimiter) {
      RoundTrip(lines, delimiter);
    } else {
      ReadsSeen(lines, delimiter);
      SeenCount(lines, delimiter);
      if Rows(Seen(lines, delimiter)) == Rows(lines) {
        SameRowsSameCount(Seen(lines, delimiter), lines);
      }
    }
  }

  /** A blank line between two others. */
  function WithBlank(end: LineEnd): seq<Line> {
    [Line([[Plain("a")]], end), Line([[]], end), Line([[Plain("b")]], end)]
  }

  lemma OnePiece(piece: Piece)
    ensures PrintField([piece]) == PrintPiece(piece) && FieldText([piece]) == piece.text
  {
  }

  lemma BlankRows(end: LineEnd)
    ensures Rows(WithBlank(end)) == [["a"], [""], ["b"]]
    ensures Rows([WithBlank(end)[0], WithBlank(end)[2]]) == [["a"], ["b"]]
  {
    OnePiece(Plain("a"));
    OnePiece(Plain("b"));
    assert Texts([[Plain("a")]]) == ["a"] && Texts([[]]) == [""] && Texts([[Plain("b")]]) == ["b"];
  }

  lemma PlainLetter(c: char, delimiter: char)
    requires c !in {'"', '\\', '\n', '\r', delimiter}
    ensures EscapedPlain([c], delimiter)
  {
    assert [c][1..] == "" && EscapedPlain("", delimiter);
  }

  lemma BlankGood(end: LineEnd, delimiter: char)
    requires delimiter !in {'"', '\\', '\n', '\r', 'a', 'b'}
    ensures GoodLines(WithBlank(end), delimiter) && AllDistinct(WithBlank(end), delimiter)
  {
    assert EscapedPlain("", delimiter);
    PlainLetter('a', delimiter);
    PlainLetter('b', delimiter);
  }

  /** It is lost with line feeds, and kept with returns or both. */
  lemma BlankLineLost(delimiter: char)
    requires delimiter !in {'"', '\\', '\n', '\r', 'a', 'b'}
    ensures ReadAll(Print(WithBlank(Newline), delimiter), delimiter) == [["a"], ["b"]]
    ensures forall end :: end != Newline ==>
              ReadAll(Print(WithBlank(end), delimiter), delimiter) == [["a"], [""], ["b"]]
  {
    hide ReadAll, Print;
    forall end: LineEnd
      ensures GoodLines(WithBlank(end), delimiter) && AllDistinct(WithBlank(end), delimiter)
    {
      BlankGood(end, delimiter);
    }
    forall end: LineEnd | end != Newline
      ensures ReadAll(Print(WithBlank(end), delimiter), delimiter) == [["a"], [""], ["b"]]
    {
      RoundTrip(WithBlank(end), delimiter);
      BlankRows(end);
    }
    var lines := WithBlank(Newline);
    ReadsSeen(lines, delimiter);
    assert Joined(lines[1..]) == [lines[2]];
    assert Following(lines, delimiter) == [lines[2]];
    assert Following([lines[2]], delimiter) == [];
    assert Seen(lines, delimiter) == [lines[0], lines[2]];
    BlankRows(Newline);
  }

  // ----- Which delimiters round-trip -----

  /** Everything printed with this line end is read back. */
  ghost predicate RoundTrips(delimiter: char, end: LineEnd) {
    forall lines: seq<Line> :: Printable(lines, delimiter) && (forall k :: 0 <= k < |lines| ==> lines[k].end == end) ==>
      ReadAll(Print(lines, delimiter), delimiter) == Rows(lines)
  }

  /** Two empty fields between quotes. */
  function TwoEmpty(end: LineEnd): seq<Line> {
    [Line([[Enclosed("")], [Enclosed("")]], end)]
  }

  lemma TwoEmptyRow(delimiter: char)
    ensures GoodRow(TwoEmpty(Newline)[0].row, delimiter)
    ensures PrintFields(TwoEmpty(Newline)[0].row, delimiter) == ['"', '"', delimiter, '"', '"']
  {
    var field := [Enclosed("")];
    var row := [field, field];
    OnePiece(field[0]);
    assert row[1..] == [field];
    assert PrintFields([field], delimiter) == PrintField(field) == ['"', '"'];
  }

  lemma TwoEmptyPrinted(delimiter: char, end: LineEnd)
    ensures Printable(TwoEmpty(end), delimiter)
    ensures Print(TwoEmpty(end), delimiter)
         == ['"'] + (['"'] + ([delimiter] + (['"'] + (['"'] + EndChars(end)))))
  {
    hide PrintFields, WellEscaped;
    TwoEmptyRow(delimiter);
    var line := TwoEmpty(end)[0];
    assert Print([], delimiter) == "" && TwoEmpty(end)[1..] == [];
    assert Print(TwoEmpty(end), delimiter) == PrintLine(line, delimiter) + "";
  }

  /** The automaton five characters into the two empty fields. */
  lemma TwoEmptyRead(delimiter: char, end: LineEnd) returns (s: Scan)
    requires delimiter == '"' || delimiter == '\\' || delimiter == EndChars(end)[0]
    ensures s.data != [] && s.state != End
    ensures Run(Print(TwoEmpty(end), delimiter), START, delimiter) == Run(EndChars(end), s, delimiter)
    ensures delimiter == '"' || delimiter == '\\' ==> s.state == Quoted && |s.data| == 1
    ensures delimiter == EndChars(end)[0] ==> s == Scan(Unquoted, ["", ""])
  {
    hide Run;
    var ending := EndChars(end);
    TwoEmptyPrinted(delimiter, end);
    RunSnoc('"', ['"'] + ([delimiter] + (['"'] + (['"'] + ending))), START, delimiter);
    RunSnoc('"', [delimiter] + (['"'] + (['"'] + ending)), Scan(Quoted, [""]), delimiter);
    s := Feed(Scan(Unquoted, [""]), delimiter, delimiter);
    RunSnoc(delimiter, ['"'] + (['"'] + ending), Scan(Unquoted, [""]), delimiter);
    RunSnoc('"', ['"'] + ending, s, delimiter);
    s := Feed(s, '"', delimiter);
    RunSnoc('"', ending, s, delimiter);
    s := Feed(s, '"', delimiter);
  }

  /** In quotes the line end is taken into the field. */
  lemma {:induction false} QuotedKeepsFields(text: string, s: Scan, delimiter: char)
    requires s.state == Quoted && s.data != [] && forall k :: 0 <= k < |text| ==> text[k] != '"' && text[k] != '\\'
    ensures |Run(text, s, delimiter).0.data| == |s.data|
    decreases |text|
  {
    if text != "" {
      QuotedKeepsFields(text[1..], Feed(s, text[0], delimiter), delimiter);
    }
  }

  /** If the delimiter begins the line end, a third field appears. */
  lemma ThirdField(delimiter: char, end: LineEnd)
    requires delimiter == EndChars(end)[0]
    ensures |Run(EndChars(end), Scan(Unquoted, ["", ""]), delimiter).0.data| == 3
  {
    var s := Scan(Unquoted, ["", "", ""]);
    var rest := EndChars(end)[1..];
    assert EndChars(end) == [delimiter] + rest;
    RunSnoc(delimiter, rest, Scan(Unquoted, ["", ""]), delimiter);
    if rest != "" {
      assert rest == ['\n'] + "";
      RunSnoc('\n', "", s, delimiter);
    }
  }

  lemma TwoEmptyBroken(delimiter: char, end: LineEnd)
    requires !Distinct(delimiter, end)
    ensures |Run(Print(TwoEmpty(end), delimiter), START, delimiter).0.data| != 2
  {
    hide Run, Print;
    var s := TwoEmptyRead(delimiter, end);
    if delimiter == EndChars(end)[0] {
      ThirdField(delimiter, end);
    } else {
      QuotedKeepsFields(EndChars(end), s, delimiter);
    }
  }

  lemma Broken(delimiter: char, end: LineEnd)
    requires !Distinct(delimiter, end)
    ensures ReadAll(Print(TwoEmpty(end), delimiter), delimiter) != Rows(TwoEmpty(end))
  {
    hide Run, Print, EndChars;
    var text := Print(TwoEmpty(end), delimiter);
    TwoEmptyPrinted(delimiter, end);
    TwoEmptyBroken(delimiter, end);
    assert ReadAll(text, delimiter)[0] == Run(text, START, delimiter).0.data;
    assert |Rows(TwoEmpty(end))[0]| == 2;
  }

  /**
   * Printing and reading agree on everything exactly if the delimiter is distinct from quote, backslash and line
   * end.
   */
  lemma RoundTripsExactly(delimiter: char, end: LineEnd)
    ensures RoundTrips(delimiter, end) <==> Distinct(delimiter, end)
  {
    hide ReadAll, Print, Rows, PrintLine;
    if Distinct(delimiter, end) {
      forall lines: seq<Line> | Printable(lines, delimiter) && forall k :: 0 <= k < |lines| ==> lines[k].end == end
        ensures ReadAll(Print(lines, delimiter), delimiter) == Rows(lines)
      {
        RoundTrip(lines, delimiter);
      }
    } else {
      Broken(delimiter, end);
      TwoEmptyPrinted(delimiter, end);
    }
  }

  /** Every sequence of well escaped rows printed with this line end is read back. */
  ghost predicate AllRoundTrip(delimiter: char, end: LineEnd) {
    forall lines: seq<Line> :: GoodLines(lines, delimiter) && (forall k :: 0 <= k < |lines| ==> lines[k].end == end) ==>
      ReadAll(Print(lines, delimiter), delimiter) == Rows(lines)
  }

  /** Two blank lines, or, if the line end is a return, two rows of two empty fields. */
  function TwoBlank(end: LineEnd): seq<Line> {
    var line := Line(if end == Newline then [[]] else [[], []], end);
    [line, line]
  }

  lemma TwoBlankJoin(delimiter: char, end: LineEnd)
    requires end == Newline || (end == Return && delimiter == '\n')
    ensures GoodLines(TwoBlank(end), delimiter)
    ensures TwoBlank(end)[0].end != ReturnNewline && PrintLine(TwoBlank(end)[1], delimiter)[0] == '\n'
  {
    if end == Return {
      var row: seq<Field> := [[], []];
      assert PrintFields(row, delimiter) == PrintField(row[0]) + [delimiter] + PrintFields(row[1..], delimiter);
    }
  }

  lemma ReturnBegins(line: Line, delimiter: char)
    requires GoodRow(line.row, delimiter) && line.end == Return && delimiter != '\n' && PrintField(line.row[0]) == ""
    ensures PrintLine(line, delimiter)[0] != '\n'
  {
    hide WellEscaped, PrintField;
  }

  /**
   * Nothing is ever lost exactly if the delimiter is distinct and lines end with both characters, or with a return
   * while the delimiter is not a line feed.
   */
  lemma AllRoundTripExactly(delimiter: char, end: LineEnd)
    ensures AllRoundTrip(delimiter, end) <==>
            Distinct(delimiter, end) && (end == ReturnNewline || (end == Return && delimiter != '\n'))
  {
    hide ReadAll, Print, Rows, PrintLine, WellEscaped;
    if Distinct(delimiter, end) && (end == ReturnNewline || (end == Return && delimiter != '\n')) {
      forall lines: seq<Line> | GoodLines(lines, delimiter) && forall k :: 0 <= k < |lines| ==> lines[k].end == end
        ensures ReadAll(Print(lines, delimiter), delimiter) == Rows(lines)
      {
        forall k | 1 <= k < |lines|
          ensures !Joins(lines[k - 1].end, lines[k], delimiter)
        {
          if Joins(lines[k - 1].end, lines[k], delimiter) {
            BeginsWithNewline(lines[k], delimiter);
            ReturnBegins(lines[k], delimiter);
          }
        }
        RoundTrip(lines, delimiter);
      }
    } else if !Distinct(delimiter, end) {
      Broken(delimiter, end);
      TwoEmptyPrinted(delimiter, end);
    } else {
      TwoBlankJoin(delimiter, end);
      ReadsBackExactly(TwoBlank(end), delimiter);
      assert TwoBlank(end)[1 - 1].end != ReturnNewline;
    }
  }

  // ----- Rows as maps -----

  datatype Outcome = Row(row: map<string, string>) | AtEnd | WrongLength(line: nat)

  /** std::vector::resize */
  function Resize(data: seq<string>, n: nat): (r: seq<string>)
    ensures |r| == n
  {
    if |data| >= n then data[..n] else data + seq(n - |data|, i => "")
  }

  /** Each column name with the last value under it. */
  function Combine(header: seq<string>, data: seq<string>): (row: map<string, string>)
    requires |header| == |data|
  {
    if header == [] then map[]
    else
      var n := |header| - 1;
      Combine(header[..n], data[..n])[header[n] := data[n]]
  }

  lemma SameSize(data: seq<string>)
    ensures Resize(data, |data|) == data
  {
  }

  class CsvStream {
    const input: InputStream
    const delimiter: char
    const strict: bool
    var lineNo: nat
    var header: seq<string>

    ghost predicate Valid()
      reads this, input
    {
      input.Valid()
    }

    constructor (input: InputStream, delimiter: char, strict: bool)
      requires input.Valid()
      ensures Valid() && this.input == input && this.delimiter == delimiter && this.strict == strict
      ensures lineNo == 0 && header == []
    {
      this.input := input;
      this.delimiter := delimiter;
      this.strict := strict;
      lineNo := 0;
      header := [];
    }

    /** The first line names the columns; false stands for the exception. */
    method ReadHeader() returns (ok: bool)
      requires Valid()
      modifies this, input
      ensures Valid() && lineNo == old(lineNo)
      ensures ok == (!old(input.failed) && old(input.Rest()) != "")
      ensures ok ==> header == Run(old(input.Rest()), START, delimiter).0.data
      ensures ok ==> input.Rest() == Run(old(input.Rest()), START, delimiter).1 && !input.failed
    {
      hide Run;
      ok, header := ReadCsvLine(input, delimiter);
    }

    /** operator>> into a map. */
    method Extract() returns (r: Outcome)
      requires Valid()
      modifies this, input
      ensures Valid() && header == old(header)
      ensures r.AtEnd? <==> old(input.failed) || old(input.Rest()) == ""
      ensures r.AtEnd? ==> input.position == old(input.position) && lineNo == old(lineNo) && input.failed
      ensures !r.AtEnd? ==> lineNo == old(lineNo) + 1 && !input.failed
      ensures !r.AtEnd? ==> input.Rest() == Run(old(input.Rest()), START, delimiter).1
      ensures !r.AtEnd? ==>
        var data := Run(old(input.Rest()), START, delimiter).0.data;
        r == if strict && |data| != |header| then WrongLength(lineNo)
             else Row(Combine(header, Resize(data, |header|)))
    {
      hide Run, Resize;
      var ok, data := ReadCsvLine(input, delimiter);
      if !ok {
        return AtEnd;
      }
      lineNo := lineNo + 1;
      SameSize(data);
      if !strict {
        data := Resize(data, |header|);
      }
      if |data| != |header| {
        return WrongLength(lineNo);
      }
      var row: map<string, string> := map[];
      for i := 0 to |data|
        invariant row == Combine(header[..i], data[..i])
      {
        assert header[..i + 1][..i] == header[..i] && data[..i + 1][..i] == data[..i];
        row := row[header[i] := data[i]];
      }
      assert header[..|data|] == header && data[..|data|] == data;
      return Row(row);
    }
  }

  /** The map has exactly the columns. */
  lemma {:induction false} CombineKeys(header: seq<string>, data: seq<string>)
    requires |header| == |data|
    ensures forall name :: name in Combine(header, data) <==> name in header
  {
    if header != [] {
      var n := |header| - 1;
      CombineKeys(header[..n], data[..n]);
      assert header == header[..n] + [header[n]];
    }
  }

  /** A column holds the value under its last occurrence in the header. */
  lemma {:induction false} CombineAt(header: seq<string>, data: seq<string>, i: nat)
    requires |header| == |data| && i < |header| && forall k :: i < k < |header| ==> header[k] != header[i]
    ensures header[i] in Combine(header, data) && Combine(header, data)[header[i]] == data[i]
  {
    var n := |header| - 1;
    if i < n {
      CombineAt(header[..n], data[..n], i);
    }
  }

  lemma ResizeAt(data: seq<string>, n: nat, i: nat)
    requires i < n
    ensures Resize(data, n)[i] == if i < |data| then data[i] else ""
  {
  }

  /** Without strictness a column has the field under it, or an empty one if the row is too short. */
  lemma ColumnHolds(header: seq<string>, data: seq<string>, i: nat)
    requires i < |header| && forall k :: i < k < |header| ==> header[k] != header[i]
    ensures var row := Combine(header, Resize(data, |header|));
            header[i] in row && row[header[i]] == if i < |data| then data[i] else ""
  {
    CombineAt(header, Resize(data, |header|), i);
    ResizeAt(data, |header|, i);
  }
}
