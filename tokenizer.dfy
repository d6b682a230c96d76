/**
 * splitCsvLine: one left-to-right scan over a line that carries an inQuotes flag.
 * Inside quotes a doubled quote is one literal quote; a quote otherwise only flips
 * the flag and is dropped; a comma outside quotes ends a field; every field is trimmed.
 * Quoting follows section 2 of RFC 4180 loosely: no line breaks inside fields, and an
 * unbalanced quote is never an error.
 */
module Tokenizer {
  import opened Strings

  /** The scan's mutable state: the fields pushed so far, the current field, the flag. */
  datatype ScanState = ScanState(done: seq<string>, curr: string, inQuotes: bool)

  /** The scan of the characters still to be read, from a given state. */
  function Scan(rest: string, st: ScanState): ScanState
    decreases |rest|
  {
    if rest == [] then st
    else if rest[0] == '"' then
      if st.inQuotes && |rest| > 1 && rest[1] == '"' then Scan(rest[2..], st.(curr := st.curr + "\""))
      else Scan(rest[1..], st.(inQuotes := !st.inQuotes))
    else if rest[0] == ',' && !st.inQuotes then Scan(rest[1..], ScanState(st.done + [st.curr], "", false))
    else Scan(rest[1..], st.(curr := st.curr + [rest[0]]))
  }

  /** The fields of a line before trimming: every pushed field, then the last one. */
  function RawFields(line: string): seq<string> {
    var st := Scan(line, ScanState([], "", false));
    st.done + [st.curr]
  }

  function TrimAll(fields: seq<string>): (r: seq<string>)
    ensures |r| == |fields|
  {
    if fields == [] then [] else [Trim(fields[0])] + TrimAll(fields[1..])
  }

  /** What splitCsvLine returns. */
  function SplitFields(line: string): seq<string> {
    TrimAll(RawFields(line))
  }

  /** splitCsvLine, the loop as the source writes it. */
  method SplitCsvLine(line: string) returns (fields: seq<string>)
    ensures fields == SplitFields(line)
  {
    var result: seq<string> := [];
    var curr := "";
    var inQuotes := false;
    var i := 0;
    while i < |line|
      invariant 0 <= i <= |line|
      invariant Scan(line[i..], ScanState(result, curr, inQuotes)) == Scan(line, ScanState([], "", false))
    {
      var ch := line[i];
      if ch == '"' {
        if inQuotes && i + 1 < |line| && line[i + 1] == '"' {
          assert line[i..][2..] == line[i + 2..];
          curr := curr + "\"";
          i := i + 1;  // skip the second quote of the pair
        } else {
          assert line[i..][1..] == line[i + 1..];
          inQuotes := !inQuotes;
        }
      } else if ch == ',' && !inQuotes {
        assert line[i..][1..] == line[i + 1..];
        result := result + [curr];
        curr := "";
      } else {
        assert line[i..][1..] == line[i + 1..];
        curr := curr + [ch];
      }
      i := i + 1;
    }
    result := result + [curr];
    fields := TrimAll(result);
  }

  /** Every field comes out trimmed, so trimming it again changes nothing. */
  lemma FieldsAreTrimmed(line: string)
    ensures |SplitFields(line)| >= 1
    ensures forall k :: 0 <= k < |SplitFields(line)| ==> Trim(SplitFields(line)[k]) == SplitFields(line)[k]
  {
    var fs := RawFields(line);
    forall k | 0 <= k < |fs| ensures Trim(SplitFields(line)[k]) == SplitFields(line)[k] {
      TrimAllAt(fs, k);
      TrimIdempotent(fs[k]);
    }
  }

  lemma {:induction false} TrimAllAt(fs: seq<string>, k: nat)
    requires k < |fs|
    ensures TrimAll(fs)[k] == Trim(fs[k])
  {
    if k > 0 {
      TrimAllAt(fs[1..], k - 1);
    }
  }

  /**
   * The commas that end a field, counted independently of the scan: a comma is a field
   * separator exactly when an even number of quote characters precedes it on the line
   * (odd is the parity carried in).
   */
  function Separators(s: string, odd: bool): nat {
    if s == [] then 0
    else (if s[0] == ',' && !odd then 1 else 0) + Separators(s[1..], if s[0] == '"' then !odd else odd)
  }

  lemma {:induction false} ScanCountsSeparators(s: string, st: ScanState)
    ensures |Scan(s, st).done| == |st.done| + Separators(s, st.inQuotes)
    decreases |s|
  {
    if s != [] {
      if s[0] == '"' {
        if st.inQuotes && |s| > 1 && s[1] == '"' {
          assert Separators(s, true) == Separators(s[1..], false) == Separators(s[2..], true);
          ScanCountsSeparators(s[2..], st.(curr := st.curr + "\""));
        } else {
          ScanCountsSeparators(s[1..], st.(inQuotes := !st.inQuotes));
        }
      } else if s[0] == ',' && !st.inQuotes {
        ScanCountsSeparators(s[1..], ScanState(st.done + [st.curr], "", false));
      } else {
        ScanCountsSeparators(s[1..], st.(curr := st.curr + [s[0]]));
      }
    }
  }

  /** There is one more field than there are separating commas, so never zero fields. */
  lemma FieldCount(line: string)
    ensures |SplitFields(line)| == 1 + Separators(line, false)
  {
    ScanCountsSeparators(line, ScanState([], "", false));
  }

  /**
   * Scanning a concatenation is scanning one part after the other, unless a quote
   * ends the first part and another begins the second (they might form a pair).
   */
  lemma {:induction false} ScanConcat(s: string, t: string, st: ScanState)
    requires s == [] || t == [] || s[|s| - 1] != '"' || t[0] != '"'
    ensures Scan(s + t, st) == Scan(t, Scan(s, st))
    decreases |s|
  {
    if s == [] {
      assert s + t == t;
    } else if s[0] == '"' && st.inQuotes && |s + t| > 1 && (s + t)[1] == '"' {
      assert |s| > 1;
      assert (s + t)[2..] == s[2..] + t;
      ScanConcat(s[2..], t, st.(curr := st.curr + "\""));
    } else {
      assert (s + t)[1..] == s[1..] + t;
      if s[0] == '"' {
        ScanConcat(s[1..], t, st.(inQuotes := !st.inQuotes));
      } else if s[0] == ',' && !st.inQuotes {
        ScanConcat(s[1..], t, ScanState(st.done + [st.curr], "", false));
      } else {
        ScanConcat(s[1..], t, st.(curr := st.curr + [s[0]]));
      }
    }
  }

  /** A stretch without quotes or commas is appended to the current field. */
  lemma {:induction false} ScanPlain(s: string, st: ScanState)
    requires '"' !in s && ',' !in s
    ensures Scan(s, st) == st.(curr := st.curr + s)
    decreases |s|
  {
    if s == [] {
      assert st.curr + s == st.curr;
    } else {
      ScanPlain(s[1..], st.(curr := st.curr + [s[0]]));
      assert st.curr + [s[0]] + s[1..] == st.curr + s;
    }
  }

  /** A field with neither quotes nor commas, as an RFC 4180 writer leaves it. */
  predicate Plain(f: string) {
    '"' !in f && ',' !in f
  }

  lemma {:induction false} ScanJoinedPlain(fs: seq<string>, done: seq<string>)
    requires |fs| >= 1
    requires forall k :: 0 <= k < |fs| ==> Plain(fs[k])
    ensures Scan(Join(fs, ','), ScanState(done, "", false)) == ScanState(done + fs[..|fs| - 1], fs[|fs| - 1], false)
  {
    if |fs| == 1 {
      ScanPlain(fs[0], ScanState(done, "", false));
    } else {
      var rest := Join(fs[1..], ',');
      assert Join(fs, ',') == fs[0] + ([','] + rest);
      ScanConcat(fs[0], [','] + rest, ScanState(done, "", false));
      ScanPlain(fs[0], ScanState(done, "", false));
      assert "" + fs[0] == fs[0];
      assert ([','] + rest)[1..] == rest;
      ScanJoinedPlain(fs[1..], done + [fs[0]]);
      assert done + [fs[0]] + fs[1..][..|fs[1..]| - 1] == done + fs[..|fs| - 1];
    }
  }

  /** Fields without quotes or commas, joined with commas, are split back into the same fields. */
  lemma PlainRoundTrip(fs: seq<string>)
    requires |fs| >= 1
    requires forall k :: 0 <= k < |fs| ==> Plain(fs[k])
    ensures RawFields(Join(fs, ',')) == fs
    ensures SplitFields(Join(fs, ',')) == TrimAll(fs)
  {
    PlainRaw(fs);
  }

  lemma PlainRaw(fs: seq<string>)
    requires |fs| >= 1
    requires forall k :: 0 <= k < |fs| ==> Plain(fs[k])
    ensures RawFields(Join(fs, ',')) == fs
  {
    ScanJoinedPlain(fs, []);
    RawOf(Join(fs, ','), fs);
  }

  /** A line whose scan ends with fields fs pushed but the last, and the last current, splits into fs. */
  lemma RawOf(line: string, fs: seq<string>)
    requires |fs| >= 1
    requires Scan(line, ScanState([], "", false)) == ScanState([] + fs[..|fs| - 1], fs[|fs| - 1], false)
    ensures RawFields(line) == fs
  {
    assert [] + fs[..|fs| - 1] + [fs[|fs| - 1]] == fs;
  }

  /** Doubles every quote, as RFC 4180 section 2 rule 7 asks inside a quoted field. */
  function Escape(f: string): string {
    if f == [] then ""
    else (if f[0] == '"' then "\"\"" else [f[0]]) + Escape(f[1..])
  }

  lemma {:induction false} EscapeConcat(a: string, b: string)
    ensures Escape(a + b) == Escape(a) + Escape(b)
  {
    if a == [] {
      assert a + b == b;
    } else {
      assert (a + b)[1..] == a[1..] + b;
      EscapeConcat(a[1..], b);
    }
  }

  lemma {:induction false} EscapeNoQuote(f: string)
    requires '"' !in f
    ensures Escape(f) == f
  {
    if f != [] {
      EscapeNoQuote(f[1..]);
    }
  }

  /** A field written in quotes. */
  function Quote(f: string): string {
    "\"" + Escape(f) + "\""
  }

  function QuoteAll(fs: seq<string>): (r: seq<string>)
    ensures |r| == |fs|
  {
    if fs == [] then [] else [Quote(fs[0])] + QuoteAll(fs[1..])
  }

  /** A line of quoted fields, as an RFC 4180 writer produces it. */
  function EncodeLine(fs: seq<string>): string {
    Join(QuoteAll(fs), ',')
  }

  lemma ScanToggle(rest: string, st: ScanState)
    requires rest == [] || rest[0] != '"' || !st.inQuotes
    ensures Scan("\"" + rest, st) == Scan(rest, st.(inQuotes := !st.inQuotes))
  {
    assert ("\"" + rest)[1..] == rest;
  }

  lemma ScanPair(rest: string, st: ScanState)
    requires st.inQuotes
    ensures Scan("\"\"" + rest, st) == Scan(rest, st.(curr := st.curr + "\""))
  {
    assert ("\"\"" + rest)[2..] == rest;
  }

  lemma ScanChar(c: char, rest: string, st: ScanState)
    requires c != '"' && (c != ',' || st.inQuotes)
    ensures Scan([c] + rest, st) == Scan(rest, st.(curr := st.curr + [c]))
  {
    assert ([c] + rest)[1..] == rest;
  }

  lemma ScanComma(rest: string, st: ScanState)
    requires !st.inQuotes
    ensures Scan("," + rest, st) == Scan(rest, ScanState(st.done + [st.curr], "", false))
  {
    assert ("," + rest)[1..] == rest;
  }

  /** Inside quotes, an escaped field followed by the closing quote contributes exactly the field. */
  lemma {:induction false} ScanEscaped(f: string, rest: string, st: ScanState)
    requires st.inQuotes
    requires rest == [] || rest[0] != '"'
    ensures Scan(Escape(f) + "\"" + rest, st) == Scan(rest, st.(curr := st.curr + f, inQuotes := false))
    decreases |f|
  {
    if f == [] {
      assert Escape(f) + "\"" + rest == "\"" + rest;
      ScanToggle(rest, st);
      assert st.curr + f == st.curr;
    } else {
      var c := if f[0] == '"' then "\"" else [f[0]];
      EscapedHead(f, rest, st);
      ScanEscaped(f[1..], rest, st.(curr := st.curr + c));
      assert c == f[..1] && f == f[..1] + f[1..];
      assert st.curr + c + f[1..] == st.curr + f;
    }
  }

  /** Inside quotes, the first character of an escaped field joins the current field. */
  lemma EscapedHead(f: string, rest: string, st: ScanState)
    requires st.inQuotes && f != []
    ensures Scan(Escape(f) + "\"" + rest, st)
         == Scan(Escape(f[1..]) + "\"" + rest, st.(curr := st.curr + (if f[0] == '"' then "\"" else [f[0]])))
  {
    var tail := Escape(f[1..]) + "\"" + rest;
    if f[0] == '"' {
      assert Escape(f) + "\"" + rest == "\"\"" + tail;
      ScanPair(tail, st);
    } else {
      assert Escape(f) + "\"" + rest == [f[0]] + tail;
      ScanChar(f[0], tail, st);
    }
  }

  /** Outside quotes, a quoted field followed by a non-quote contributes exactly the field. */
  lemma ScanQuoted(f: string, rest: string, done: seq<string>)
    requires rest == [] || rest[0] != '"'
    ensures Scan(Quote(f) + rest, ScanState(done, "", false)) == Scan(rest, ScanState(done, f, false))
  {
    var inner := Escape(f) + "\"" + rest;
    assert Quote(f) + rest == "\"" + inner;
    ScanToggle(inner, ScanState(done, "", false));
    ScanEscaped(f, rest, ScanState(done, "", true));
    assert "" + f == f;
  }

  lemma {:induction false} ScanJoinedQuoted(fs: seq<string>, done: seq<string>)
    requires |fs| >= 1
    ensures Scan(EncodeLine(fs), ScanState(done, "", false)) == ScanState(done + fs[..|fs| - 1], fs[|fs| - 1], false)
  {
    if |fs| == 1 {
      assert EncodeLine(fs) == Quote(fs[0]) + "";
      ScanQuoted(fs[0], "", done);
    } else {
      var rest := EncodeLine(fs[1..]);
      assert QuoteAll(fs)[1..] == QuoteAll(fs[1..]);
      assert EncodeLine(fs) == Quote(fs[0]) + ([','] + rest);
      ScanQuoted(fs[0], [','] + rest, done);
      assert ([','] + rest)[1..] == rest;
      ScanJoinedQuoted(fs[1..], done + [fs[0]]);
      assert done + [fs[0]] + fs[1..][..|fs[1..]| - 1] == done + fs[..|fs| - 1];
    }
  }

  /**
   * The tokenizer inverts an RFC 4180 writer: any fields, each written in quotes with
   * its quotes doubled and joined by commas, come back as the same fields (then trimmed).
   */
  lemma QuotedRoundTrip(fs: seq<string>)
    requires |fs| >= 1
    ensures RawFields(EncodeLine(fs)) == fs
    ensures SplitFields(EncodeLine(fs)) == TrimAll(fs)
  {
    QuotedRaw(fs);
  }

  lemma QuotedRaw(fs: seq<string>)
    requires |fs| >= 1
    ensures RawFields(EncodeLine(fs)) == fs
  {
    ScanJoinedQuoted(fs, []);
    RawOf(EncodeLine(fs), fs);
  }

  /** White space after the last character of a line does not change its fields. */
  lemma TrailingSpaceIgnored(line: string, v: string)
    requires AllSpace(v)
    ensures SplitFields(line + v) == SplitFields(line)
  {
    forall k | 0 <= k < |v| ensures v[k] != '"' && v[k] != ',' {
      assert IsSpace(v[k]);
    }
    assert '"' !in v && ',' !in v;
    var st := Scan(line, ScanState([], "", false));
    if v != [] {
      assert IsSpace(v[0]);
      ScanConcat(line, v, ScanState([], "", false));
    } else {
      assert line + v == line;
    }
    ScanPlain(v, st);
    assert RawFields(line + v) == st.done + [st.curr + v];
    TrimAppendSpace(st.curr, v);
    TrimAllLast(st.done, st.curr + v, st.curr);
  }

  lemma TrimAllLast(done: seq<string>, a: string, b: string)
    requires Trim(a) == Trim(b)
    ensures TrimAll(done + [a]) == TrimAll(done + [b])
  {
    TrimAllAppend(done, a);
    TrimAllAppend(done, b);
  }

  lemma {:induction false} TrimAllAppend(fs: seq<string>, a: string)
    ensures TrimAll(fs + [a]) == TrimAll(fs) + [Trim(a)]
  {
    if fs != [] {
      assert (fs + [a])[1..] == fs[1..] + [a];
      TrimAllAppend(fs[1..], a);
    } else {
      assert fs + [a] == [a];
    }
  }

  /** Fields that are already trimmed pass through unchanged. */
  lemma {:induction false} TrimAllOfTrimmed(fs: seq<string>)
    requires forall k :: 0 <= k < |fs| ==> Trim(fs[k]) == fs[k]
    ensures TrimAll(fs) == fs
  {
    if fs != [] {
      TrimAllOfTrimmed(fs[1..]);
    }
  }

  /**
   * The shape of the example the source documents, `"A-563, Rakshak Society", Pune`:
   * a quoted field keeps its commas, the toggling quotes are dropped, and both fields are trimmed.
   */
  lemma QuotedThenPlain(a: string, b: string)
    requires Plain(b)
    ensures SplitFields(Quote(a) + "," + b) == [Trim(a), Trim(b)]
  {
    assert Quote(a) + "," + b == Quote(a) + ("," + b);
    ScanQuoted(a, "," + b, []);
    ScanComma(b, ScanState([], a, false));
    ScanPlain(b, ScanState([a], "", false));
    assert "" + b == b;
    assert [] + [a] == [a];
    var raw := RawFields(Quote(a) + "," + b);
    assert raw == [a, b];
    assert TrimAll(raw) == [Trim(a)] + TrimAll([b]);
  }

  lemma PlainExample()
    ensures SplitFields("A,B,C") == ["A", "B", "C"]
  {
    assert "A,B,C" == Join(["A", "B", "C"], ',');
    PlainRoundTrip(["A", "B", "C"]);
    assert Trim("A") == "A" && Trim("B") == "B" && Trim("C") == "C";
    TrimAllOfTrimmed(["A", "B", "C"]);
  }
}
