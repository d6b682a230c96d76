/**
 * The two line drivers of csvParser.js. streamParseCsv reads the file line by line: the
 * first line, trimmed, gives the headers and every later non-blank line is one row; a row
 * whose setNested throws ends the whole stream with a failure. parseCsvToJson does the same
 * over a whole text split on line breaks, and lets the error escape.
 */
module Drivers {
  import opened Wrappers
  import opened Strings
  import opened Tokenizer
  import opened Nested
  import opened Rows

  /** What a stream produced: the records yielded, in order, and whether it ended by throwing. */
  datatype Outcome = Outcome(records: seq<User>, failed: bool)

  /** The headers of a header line: split, then trimmed once more by .map(h => h.trim()). */
  function Headers(line: string): seq<string> {
    TrimAll(SplitFields(Trim(line)))
  }

  /** The second trim of the headers changes nothing: splitCsvLine already trims. */
  lemma HeadersTrimmedOnce(line: string)
    ensures Headers(line) == SplitFields(Trim(line))
  {
    FieldsAreTrimmed(Trim(line));
    TrimAllOfTrimmed(SplitFields(Trim(line)));
  }

  /** The data lines folded in order: accepted rows are yielded, the first broken row stops everything. */
  function RowsOf(headers: seq<string>, lines: seq<string>): Outcome
    decreases |lines|
  {
    if lines == [] then Outcome([], false)
    else
      var prev := RowsOf(headers, lines[..|lines| - 1]);
      if prev.failed then prev
      else match ParseLine(headers, lines[|lines| - 1])
        case Accepted(u) => Outcome(prev.records + [u], false)
        case Broken => Outcome(prev.records, true)
        case _ => prev
  }

  /** The lines a stream reads: the first is the header line, even when it is blank. */
  function Stream(lines: seq<string>): Outcome {
    if lines == [] then Outcome([], false) else RowsOf(Headers(lines[0]), lines[1..])
  }

  /** The loop of streamParseCsv over the lines readline delivers. */
  method StreamParseCsv(lines: seq<string>) returns (records: seq<User>, failed: bool)
    ensures Outcome(records, failed) == Stream(lines)
  {
    records := [];
    failed := false;
    var headers: seq<string> := [];
    var lineIndex := 0;
    while lineIndex < |lines|
      invariant 0 <= lineIndex <= |lines|
      invariant lineIndex >= 1 ==> headers == Headers(lines[0])
      invariant lineIndex >= 1 ==> Outcome(records, false) == RowsOf(headers, lines[1..lineIndex])
      invariant lineIndex == 0 ==> records == []
    {
      if lineIndex == 0 {
        var fields := SplitCsvLine(Trim(lines[0]));
        headers := TrimAll(fields);
        lineIndex := lineIndex + 1;
        assert lines[1..lineIndex] == [];
        continue;
      }
      var k := lineIndex;
      lineIndex := lineIndex + 1;
      RowsNext(headers, lines, k, records);
      var verdict := ParseRow(headers, lines[k]);
      match verdict
      case Accepted(u) =>
        records := records + [u];
      case Broken =>
        failed := true;
        RowsBrokenAt(headers, lines, k);
        return;
      case _ =>
    }
    assert lineIndex >= 1 ==> lines[1..lineIndex] == lines[1..];
  }

  /**
   * The body both drivers run on one data line: trim, skip when blank, split, fill the object
   * header by header, then validate and normalize.
   */
  method ParseRow(headers: seq<string>, raw: string) returns (verdict: LineResult)
    ensures verdict == ParseLine(headers, raw)
  {
    var line := Trim(raw);
    if line == "" {
      return Blank;
    }
    var values := SplitCsvLine(line);
    var obj := BuildRecord(headers, values);
    if obj.None? {
      return Broken;
    }
    match Normalize(obj.value)
    case Err(why) => verdict := Rejected(why);
    case Ok(user) => verdict := Accepted(user);
  }

  /** One more data line: the fold takes one step. */
  lemma RowsStep(headers: seq<string>, lines: seq<string>, k: nat)
    requires 1 <= k < |lines|
    ensures RowsOf(headers, lines[1..k + 1])
         == Then(RowsOf(headers, lines[1..k]), RowsOf(headers, [lines[k]]))
  {
    assert lines[1..k + 1] == lines[1..k] + [lines[k]];
    RowsAppend(headers, lines[1..k], [lines[k]]);
  }

  /** One more data line after records were yielded without failure. */
  lemma RowsNext(headers: seq<string>, lines: seq<string>, k: nat, records: seq<User>)
    requires 1 <= k < |lines| && RowsOf(headers, lines[1..k]) == Outcome(records, false)
    ensures RowsOf(headers, lines[1..k + 1]) == match ParseLine(headers, lines[k])
      case Accepted(u) => Outcome(records + [u], false)
      case Broken => Outcome(records, true)
      case _ => Outcome(records, false)
  {
    RowsStep(headers, lines, k);
    RowsSingle(headers, lines[k]);
  }

  /** A stream that fails at line k ends there: the later lines are never read. */
  lemma RowsBrokenAt(headers: seq<string>, lines: seq<string>, k: nat)
    requires 1 <= k < |lines| && RowsOf(headers, lines[1..k + 1]).failed
    ensures RowsOf(headers, lines[1..]) == RowsOf(headers, lines[1..k + 1])
  {
    DataSplit(lines, k + 1);
    RowsStopsAtFailure(headers, lines[1..k + 1], lines[k + 1..]);
  }

  /** The data lines cut at line j: those before it and those from it on. */
  lemma DataSplit(lines: seq<string>, j: nat)
    requires 1 <= j <= |lines|
    ensures lines[1..] == lines[1..j] + lines[j..]
  {
  }

  /** One line folded on its own is the verdict of ParseLine on it. */
  lemma RowsSingle(headers: seq<string>, raw: string)
    ensures RowsOf(headers, [raw]) == match ParseLine(headers, raw)
      case Accepted(u) => Outcome([u], false)
      case Broken => Outcome([], true)
      case _ => Outcome([], false)
  {
    assert [raw][..0] == [];
  }

  /** Sequential composition of two outcomes: nothing runs after a failure. */
  function Then(first: Outcome, second: Outcome): Outcome {
    if first.failed then first else Outcome(first.records + second.records, second.failed)
  }

  /** Folding a concatenation of lines is folding the two parts in turn. */
  lemma {:induction false} RowsAppend(headers: seq<string>, a: seq<string>, b: seq<string>)
    ensures RowsOf(headers, a + b) == Then(RowsOf(headers, a), RowsOf(headers, b))
    decreases |b|
  {
    if b == [] {
      assert a + b == a;
    } else {
      var b' := b[..|b| - 1];
      assert (a + b)[..|a + b| - 1] == a + b';
      assert (a + b)[|a + b| - 1] == b[|b| - 1];
      RowsAppend(headers, a, b');
    }
  }

  /** After a failure the remaining lines are never read. */
  lemma RowsStopsAtFailure(headers: seq<string>, a: seq<string>, b: seq<string>)
    requires RowsOf(headers, a).failed
    ensures RowsOf(headers, a + b) == RowsOf(headers, a)
  {
    RowsAppend(headers, a, b);
  }

  /** A blank data line yields nothing and changes nothing. */
  lemma BlankLineIgnored(headers: seq<string>, a: seq<string>, blank: string, b: seq<string>)
    requires Trim(blank) == ""
    ensures RowsOf(headers, a + [blank] + b) == RowsOf(headers, a + b)
  {
    assert [blank][..0] == [];
    RowsAppend(headers, a + [blank], b);
    RowsAppend(headers, a, [blank]);
    RowsAppend(headers, a, b);
  }

  /** Every data line yields at most one record. */
  lemma {:induction false} RowsBound(headers: seq<string>, lines: seq<string>)
    ensures |RowsOf(headers, lines).records| <= |lines|
    decreases |lines|
  {
    if lines != [] {
      RowsBound(headers, lines[..|lines| - 1]);
    }
  }

  /** Every yielded record passed validation: its age lies in 1..120. */
  lemma {:induction false} RowsValid(headers: seq<string>, lines: seq<string>)
    ensures forall u :: u in RowsOf(headers, lines).records ==> 0 < u.age <= 120
    decreases |lines|
  {
    if lines != [] {
      RowsValid(headers, lines[..|lines| - 1]);
    }
  }

  /** The header line is never yielded: a stream yields at most one record per data line. */
  lemma StreamBound(lines: seq<string>)
    requires |lines| >= 1
    ensures |Stream(lines).records| <= |lines| - 1
  {
    RowsBound(Headers(lines[0]), lines[1..]);
  }

  /** A blank header line gives the single header "": no row has a name, so nothing is yielded. */
  lemma BlankHeaderYieldsNothing(lines: seq<string>)
    requires |lines| >= 1 && Trim(lines[0]) == ""
    ensures Stream(lines) == Outcome([], false)
  {
    assert SplitFields("") == [""];
    assert Headers(lines[0]) == [""];
    BlankHeaderRows(lines[1..]);
  }

  /** Under the single header "" no row has a name and no row throws: nothing is yielded. */
  lemma {:induction false} BlankHeaderRows(lines: seq<string>)
    ensures RowsOf([""], lines) == Outcome([], false)
    decreases |lines|
  {
    if lines != [] {
      BlankHeaderRows(lines[..|lines| - 1]);
      var line := Trim(lines[|lines| - 1]);
      if line != "" {
        var values := SplitFields(line);
        var v := StripQuotes(ValueAt(values, 0));
        assert Split("", '.') == [""];
        assert Fill([""], values, 1) == Some(map["" := Str(v)]);
        assert Lookup(map["" := Str(v)], "name") == None;
      }
    }
  }

  /** Without a header whose path starts at "name", every row is skipped or throws: nothing is yielded. */
  lemma {:induction false} UnnamedRows(headers: seq<string>, lines: seq<string>)
    requires NoNameHeader(headers)
    ensures RowsOf(headers, lines).records == []
    decreases |lines|
  {
    if lines != [] {
      UnnamedRows(headers, lines[..|lines| - 1]);
      UnnamedLine(headers, lines[|lines| - 1]);
    }
  }

  /** The errors parseCsvToJson lets escape: the property assignment on a string. */
  datatype Thrown = AssignToString

  /** split(/\r?\n/): break at every line feed and drop a carriage return just before it. */
  function SplitLines(text: string): (r: seq<string>)
    ensures |r| >= 1
  {
    DropReturns(Split(text, '\n'))
  }

  /**
   * The lines of a text hold no line feed; put back between them, with each carriage return
   * that was dropped before a line feed restored, they give the text back.
   */
  lemma SplitLinesJoin(text: string)
    ensures var pieces := Split(text, '\n');
      var lines := SplitLines(text);
      && |lines| == |pieces| && Join(pieces, '\n') == text
      && (forall i :: 0 <= i < |lines| ==> '\n' !in lines[i])
      && (forall i :: 0 <= i < |lines| ==> lines[i] == pieces[i] || (i < |lines| - 1 && lines[i] + "\r" == pieces[i]))
      && (forall i :: 0 <= i < |lines| - 1 && EndsInReturn(pieces[i]) ==> lines[i] + "\r" == pieces[i])
  {
    var pieces := Split(text, '\n');
    var lines := SplitLines(text);
    JoinSplit(text, '\n');
    forall i | 0 <= i < |lines|
      ensures '\n' !in lines[i]
      ensures lines[i] == pieces[i] || (i < |lines| - 1 && lines[i] + "\r" == pieces[i])
      ensures i < |lines| - 1 && EndsInReturn(pieces[i]) ==> lines[i] + "\r" == pieces[i]
    {
      DropReturnsAt(pieces, i);
      var p := pieces[i];
      assert '\n' !in p;
      if i < |lines| - 1 && EndsInReturn(p) {
        assert lines[i] == p[..|p| - 1];
        assert lines[i] + "\r" == p;
        assert forall c :: c in lines[i] ==> c in p;
      }
    }
  }

  /** A piece that ends with a carriage return. */
  predicate EndsInReturn(p: string) {
    p != [] && p[|p| - 1] == '\r'
  }

  /** Piece i keeps its text, less one trailing carriage return when it is not the last. */
  lemma {:induction false} DropReturnsAt(pieces: seq<string>, i: nat)
    requires i < |pieces|
    ensures DropReturns(pieces)[i]
         == if i < |pieces| - 1 && EndsInReturn(pieces[i]) then pieces[i][..|pieces[i]| - 1] else pieces[i]
    decreases i
  {
    if i > 0 {
      DropReturnsAt(pieces[1..], i - 1);
    }
  }

  /** Every piece but the last loses one trailing carriage return. */
  function DropReturns(pieces: seq<string>): (r: seq<string>)
    ensures |r| == |pieces|
  {
    if |pieces| <= 1 then pieces
    else
      var p := pieces[0];
      var q := if p != [] && p[|p| - 1] == '\r' then p[..|p| - 1] else p;
      [q] + DropReturns(pieces[1..])
  }

  /** Every data line of a text in turn; a broken row escapes as an error. */
  function DocumentRows(headers: seq<string>, lines: seq<string>): Result<seq<User>, Thrown>
    decreases |lines|
  {
    if lines == [] then Ok([])
    else match DocumentRows(headers, lines[..|lines| - 1])
      case Err(e) => Err(e)
      case Ok(prev) =>
        match ParseLine(headers, lines[|lines| - 1])
        case Accepted(u) => Ok(prev + [u])
        case Broken => Err(AssignToString)
        case _ => Ok(prev)
  }

  /** parseCsvToJson: fewer than two lines gives []; the first line, untrimmed, holds the headers. */
  function ParseDocument(text: string): Result<seq<User>, Thrown> {
    var lines := SplitLines(Trim(text));
    if |lines| < 2 then Ok([])
    else DocumentRows(TrimAll(SplitFields(lines[0])), lines[1..])
  }

  /** The loop of parseCsvToJson. */
  method ParseCsvToJson(csvText: string) returns (r: Result<seq<User>, Thrown>)
    ensures r == ParseDocument(csvText)
  {
    var lines := SplitLines(Trim(csvText));
    if |lines| < 2 {
      return Ok([]);
    }
    var fields := SplitCsvLine(lines[0]);
    var headers := TrimAll(fields);
    assert ParseDocument(csvText) == DocumentRows(headers, lines[1..]);
    var result: seq<User> := [];
    var i := 1;
    while i < |lines|
      invariant 1 <= i <= |lines|
      invariant DocumentRows(headers, lines[1..i]) == Ok(result)
    {
      DocumentNext(headers, lines, i, result);
      var verdict := ParseRow(headers, lines[i]);
      i := i + 1;
      match verdict
      case Accepted(u) =>
        result := result + [u];
      case Broken =>
        DocumentBrokenAt(headers, lines, i - 1);
        return Err(AssignToString);
      case _ =>
    }
    assert lines[1..i] == lines[1..];
    r := Ok(result);
  }

  /** One more line of the text: the fold takes one step. */
  lemma DocumentStep(headers: seq<string>, lines: seq<string>, i: nat)
    requires 1 <= i < |lines|
    ensures DocumentRows(headers, lines[1..i + 1]) == match DocumentRows(headers, lines[1..i])
      case Err(e) => Err(e)
      case Ok(prev) =>
        match ParseLine(headers, lines[i])
        case Accepted(u) => Ok(prev + [u])
        case Broken => Err(AssignToString)
        case _ => Ok(prev)
  {
    assert lines[1..i + 1][..i - 1] == lines[1..i];
    assert lines[1..i + 1][i - 1] == lines[i];
  }

  /** One more line after the records so far were accepted without an error. */
  lemma DocumentNext(headers: seq<string>, lines: seq<string>, i: nat, result: seq<User>)
    requires 1 <= i < |lines| && DocumentRows(headers, lines[1..i]) == Ok(result)
    ensures DocumentRows(headers, lines[1..i + 1]) == match ParseLine(headers, lines[i])
      case Accepted(u) => Ok(result + [u])
      case Broken => Err(AssignToString)
      case _ => Ok(result)
  {
    DocumentStep(headers, lines, i);
  }

  /** A text whose line i throws gives that error, whatever the later lines hold. */
  lemma DocumentBrokenAt(headers: seq<string>, lines: seq<string>, i: nat)
    requires 1 <= i < |lines| && DocumentRows(headers, lines[1..i + 1]).Err?
    ensures DocumentRows(headers, lines[1..]) == DocumentRows(headers, lines[1..i + 1])
  {
    DataSplit(lines, i + 1);
    DocumentStopsAtFailure(headers, lines[1..i + 1], lines[i + 1..]);
  }

  lemma {:induction false} DocumentStopsAtFailure(headers: seq<string>, a: seq<string>, b: seq<string>)
    requires DocumentRows(headers, a).Err?
    ensures DocumentRows(headers, a + b) == DocumentRows(headers, a)
    decreases |b|
  {
    if b == [] {
      assert a + b == a;
    } else {
      assert (a + b)[..|a + b| - 1] == a + b[..|b| - 1];
      DocumentStopsAtFailure(headers, a, b[..|b| - 1]);
    }
  }

  /** The whole-text fold and the stream fold agree on the same lines. */
  lemma {:induction false} DocumentIsStream(headers: seq<string>, lines: seq<string>)
    ensures DocumentRows(headers, lines)
         == if RowsOf(headers, lines).failed then Err(AssignToString) else Ok(RowsOf(headers, lines).records)
    decreases |lines|
  {
    if lines != [] {
      DocumentIsStream(headers, lines[..|lines| - 1]);
    }
  }

  /**
   * parseCsvToJson and streamParseCsv agree: given the lines of the trimmed text, the records
   * parseCsvToJson returns are those the stream yields, and it throws exactly when the stream fails.
   */
  lemma DocumentAgreesWithStream(text: string)
    ensures var out := Stream(SplitLines(Trim(text)));
      ParseDocument(text) == if out.failed then Err(AssignToString) else Ok(out.records)
  {
    var lines := SplitLines(Trim(text));
    if |lines| >= 2 {
      var first := lines[0];
      assert first == [] || !IsSpace(first[0]) by {
        TrimLeadsLines(text);
      }
      TrimOfTrimmedStart(first);
      TrailingSpaceIgnored(Trim(first), first[|Trim(first)|..]);
      HeadersTrimmedOnce(first);
      FieldsAreTrimmed(first);
      TrimAllOfTrimmed(SplitFields(first));
      DocumentIsStream(Headers(first), lines[1..]);
    }
  }

  /** The first line of a trimmed text does not start with white space. */
  lemma TrimLeadsLines(text: string)
    ensures var first := SplitLines(Trim(text))[0]; first == [] || !IsSpace(first[0])
  {
    var t := Trim(text);
    TrimEnds(text);
    SplitFirst(t, '\n');
  }

  /** The first piece of a split is a prefix of the text. */
  lemma {:induction false} SplitFirst(s: string, sep: char)
    ensures |Split(s, sep)[0]| <= |s| && Split(s, sep)[0] == s[..|Split(s, sep)[0]|]
  {
    if s != [] {
      SplitFirst(s[1..], sep);
    }
  }
}
