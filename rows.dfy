/**
 * The per-row work shared by parseCsvToJson and streamParseCsv: the headers.forEach that
 * fills a fresh object through setNested, the destructuring into name, age, address and
 * the rest, the validation of the name and the age, and the normalized user record.
 */
module Rows {
  import opened Wrappers
  import opened Strings
  import opened Tokenizer
  import opened Nested

  /** The record a valid row becomes. */
  datatype User = User(name: string, age: int, address: Value, additionalInfo: map<string, Value>)

  /** Why a row is skipped. */
  datatype RowError = MissingName | InvalidAge

  /** What one data line amounts to. */
  datatype LineResult =
    | Blank                  // the trimmed line is empty
    | Rejected(why: RowError) // skipped by validation
    | Accepted(user: User)
    | Broken                 // setNested threw: the whole parse fails

  /** values[j] ?? "": a header with no value gets the empty string. */
  function ValueAt(values: seq<string>, j: nat): string {
    if j < |values| then values[j] else ""
  }

  /** A value starting and ending with a double quote loses that outer pair: val.slice(1, -1). */
  function StripQuotes(v: string): string {
    if |v| >= 1 && v[0] == '"' && v[|v| - 1] == '"' then
      if |v| >= 2 then v[1..|v| - 1] else ""
    else v
  }

  /** Exactly one pair is removed, whatever the inner text looks like. */
  lemma StripQuotesOnePair(f: string)
    ensures StripQuotes("\"" + f + "\"") == f
  {
    var v := "\"" + f + "\"";
    assert v[1..|v| - 1] == f;
  }

  /** A value not wrapped in quotes is kept as it is. */
  lemma StripQuotesUnwrapped(v: string)
    requires v == [] || v[0] != '"' || v[|v| - 1] != '"'
    ensures StripQuotes(v) == v
  {
  }

  /**
   * The object built by the first k iterations of headers.forEach: header j receives the
   * unquoted value at position j. None once a setNested call has thrown.
   */
  function Fill(headers: seq<string>, values: seq<string>, k: nat): Option<map<string, Value>>
    requires k <= |headers|
  {
    if k == 0 then Some(map[])
    else Put(Fill(headers, values, k - 1), headers[k - 1], StripQuotes(ValueAt(values, k - 1)))
  }

  /** One forEach iteration: setNested on the object so far, unless an earlier one threw. */
  function Put(obj: Option<map<string, Value>>, header: string, val: string): Option<map<string, Value>> {
    match obj
    case None => None
    case Some(o) => SetNested(o, header, val)
  }

  /** The headers.forEach loop over a fresh object; setNested is applied as a value update. */
  method BuildRecord(headers: seq<string>, values: seq<string>) returns (obj: Option<map<string, Value>>)
    ensures obj == Fill(headers, values, |headers|)
  {
    obj := Some(map[]);
    var j := 0;
    while j < |headers|
      invariant 0 <= j <= |headers|
      invariant obj == Fill(headers, values, j)
    {
      if obj.None? {
        FillStaysFailed(headers, values, j, |headers|);
        return;
      }
      var val := CellValue(values, j);
      CellIsStripped(values, j, val);
      FillNext(headers, values, j, obj.value, val);
      obj := SetNested(obj.value, headers[j], val);
      j := j + 1;
    }
  }

  /**
   * values[j] ?? "", then one surrounding pair of quotes removed: a missing value is "", a
   * value wrapped in quotes loses that pair (a lone quote leaves ""), any other value is kept.
   */
  method CellValue(values: seq<string>, j: nat) returns (val: string)
    ensures j >= |values| ==> val == ""
    ensures j < |values| && Wrapped(values[j]) ==> val == values[j][1..|values[j]| - 1]
    ensures j < |values| && values[j] == "\"" ==> val == ""
    ensures j < |values| && values[j] != "\"" && !Wrapped(values[j]) ==> val == values[j]
  {
    val := if j < |values| then values[j] else "";
    if |val| >= 1 && val[0] == '"' && val[|val| - 1] == '"' {
      val := if |val| >= 2 then val[1..|val| - 1] else "";
    }
  }

  /** A value of two or more characters that starts and ends with a double quote. */
  predicate Wrapped(v: string) {
    |v| >= 2 && v[0] == '"' && v[|v| - 1] == '"'
  }

  /** The cell CellValue gives is the unquoted value the fill assigns at position j. */
  lemma CellIsStripped(values: seq<string>, j: nat, val: string)
    requires j >= |values| ==> val == ""
    requires j < |values| && Wrapped(values[j]) ==> val == values[j][1..|values[j]| - 1]
    requires j < |values| && values[j] == "\"" ==> val == ""
    requires j < |values| && values[j] != "\"" && !Wrapped(values[j]) ==> val == values[j]
    ensures val == StripQuotes(ValueAt(values, j))
  {
    if j < |values| && |values[j]| == 1 && values[j][0] == '"' {
      assert values[j] == "\"";
    }
  }

  /** One more iteration of the forEach: the next header receives its unquoted value. */
  lemma FillNext(headers: seq<string>, values: seq<string>, j: nat, obj: map<string, Value>, val: string)
    requires j < |headers| && Fill(headers, values, j) == Some(obj)
    requires val == StripQuotes(ValueAt(values, j))
    ensures Fill(headers, values, j + 1) == SetNested(obj, headers[j], val)
  {
  }

  /** Once a setNested call has thrown, the row stays failed. */
  lemma {:induction false} FillStaysFailed(headers: seq<string>, values: seq<string>, j: nat, k: nat)
    requires j <= k <= |headers|
    requires Fill(headers, values, j).None?
    ensures Fill(headers, values, k).None?
    decreases k
  {
    if k > j {
      FillStaysFailed(headers, values, j, k - 1);
      assert Fill(headers, values, k - 1).None?;
    }
  }

  /**
   * The value of header j survives the later headers whose paths part ways with it, so
   * after a successful forEach the path of header j leads to its unquoted value.
   */
  lemma {:induction false} FillKeeps(headers: seq<string>, values: seq<string>, j: nat, k: nat)
    requires j < k <= |headers|
    requires Fill(headers, values, k).Some?
    requires forall i :: j < i < k ==> Diverge(Split(headers[i], '.'), Split(headers[j], '.'))
    ensures Get(Fill(headers, values, k).value, Split(headers[j], '.')) == Some(Str(StripQuotes(ValueAt(values, j))))
    decreases k
  {
    var i := k - 1;
    FillStep(headers, values, k);
    var prev := Fill(headers, values, i).value;
    if i == j {
      SetPathStores(prev, Split(headers[j], '.'), StripQuotes(ValueAt(values, j)));
    } else {
      FillKeeps(headers, values, j, i);
      assert Diverge(Split(headers[i], '.'), Split(headers[j], '.'));
      SetPathFrame(prev, Split(headers[i], '.'), StripQuotes(ValueAt(values, i)), Split(headers[j], '.'));
    }
  }

  /** A successful fill of k headers is a successful fill of k - 1 followed by setNested of header k - 1. */
  lemma FillStep(headers: seq<string>, values: seq<string>, k: nat)
    requires 1 <= k <= |headers| && Fill(headers, values, k).Some?
    ensures Fill(headers, values, k - 1).Some?
    ensures Fill(headers, values, k)
         == SetPath(Fill(headers, values, k - 1).value, Split(headers[k - 1], '.'), StripQuotes(ValueAt(values, k - 1)))
  {
  }

  /** No header's path starts at the key "name". */
  predicate NoNameHeader(headers: seq<string>) {
    forall j :: 0 <= j < |headers| ==> Split(headers[j], '.')[0] != "name"
  }

  /** Without a header whose path starts at "name", the object built never holds a "name" key. */
  lemma {:induction false} FillUnnamed(headers: seq<string>, values: seq<string>, k: nat)
    requires k <= |headers| && NoNameHeader(headers)
    ensures Fill(headers, values, k).Some? ==> "name" !in Fill(headers, values, k).value
    decreases k
  {
    if k > 0 && Fill(headers, values, k).Some? {
      FillStep(headers, values, k);
      FillUnnamed(headers, values, k - 1);
      SetPathTop(Fill(headers, values, k - 1).value, Split(headers[k - 1], '.'), StripQuotes(ValueAt(values, k - 1)));
    }
  }

  /** Without a header whose path starts at "name", no line is accepted: it lacks a name or throws. */
  lemma UnnamedLine(headers: seq<string>, raw: string)
    requires NoNameHeader(headers)
    ensures !ParseLine(headers, raw).Accepted?
    ensures ParseLine(headers, raw).Rejected? ==> ParseLine(headers, raw).why == MissingName
  {
    var line := Trim(raw);
    if line != "" {
      FillUnnamed(headers, SplitFields(line), |headers|);
    }
  }

  /** The fill reads values only through ValueAt at the header positions. */
  lemma {:induction false} FillAgree(headers: seq<string>, v1: seq<string>, v2: seq<string>, k: nat)
    requires k <= |headers|
    requires forall j :: 0 <= j < k ==> ValueAt(v1, j) == ValueAt(v2, j)
    ensures Fill(headers, v1, k) == Fill(headers, v2, k)
    decreases k
  {
    if k > 0 {
      FillAgree(headers, v1, v2, k - 1);
      var x1, x2 := StripQuotes(ValueAt(v1, k - 1)), StripQuotes(ValueAt(v2, k - 1));
      assert x1 == x2;
      assert Fill(headers, v1, k) == Put(Fill(headers, v1, k - 1), headers[k - 1], x1);
      assert Fill(headers, v2, k) == Put(Fill(headers, v2, k - 1), headers[k - 1], x2);
    }
  }

  /** Values past the header count are never read. */
  lemma FillIgnoresExtra(headers: seq<string>, values: seq<string>, extra: seq<string>, k: nat)
    requires k <= |headers| <= |values|
    ensures Fill(headers, values + extra, k) == Fill(headers, values, k)
  {
    forall j | 0 <= j < k ensures ValueAt(values + extra, j) == ValueAt(values, j) {
    }
    FillAgree(headers, values + extra, values, k);
  }

  /** Missing trailing values read as the empty string, as if they had been written out. */
  lemma FillPadsMissing(headers: seq<string>, values: seq<string>, m: nat, k: nat)
    requires k <= |headers|
    ensures Fill(headers, values + seq(m, _ => ""), k) == Fill(headers, values, k)
  {
    var padded := values + seq(m, _ => "");
    forall j | 0 <= j < k ensures ValueAt(padded, j) == ValueAt(values, j) {
      if j < |values| {
        assert padded[j] == values[j];
      } else if j < |padded| {
        assert padded[j] == "";
      }
    }
    FillAgree(headers, padded, values, k);
  }

  /** obj[key]: None when the object has no such property. */
  function Lookup(obj: map<string, Value>, key: string): Option<Value> {
    if key in obj then Some(obj[key]) else None
  }

  /** v?.[key] ?? "": a missing or string-valued parent gives the empty string. */
  function MemberOrEmpty(v: Option<Value>, key: string): Value {
    match v
    case Some(Obj(f)) => if key in f then f[key] else Str("")
    case _ => Str("")
  }

  /** The text a template literal or String() gives for a value. */
  function Text(v: Value): string {
    match v
    case Str(t) => t
    case Obj(_) => "[object Object]"
  }

  /** String(age) as parseInt sees it: an absent age is the text "undefined". */
  function AgeText(age: Option<Value>): string {
    if age.Some? then Text(age.value) else "undefined"
  }

  function FirstName(obj: map<string, Value>): Value {
    MemberOrEmpty(Lookup(obj, "name"), "firstName")
  }

  function LastName(obj: map<string, Value>): Value {
    MemberOrEmpty(Lookup(obj, "name"), "lastName")
  }

  /** parseInt(age, 10). */
  function AgeOf(obj: map<string, Value>): Option<int> {
    ParseInt(AgeText(Lookup(obj, "age")))
  }

  /** The age test: a number, not NaN, in 1..120. */
  predicate ValidAge(n: Option<int>) {
    n.Some? && 0 < n.value <= 120
  }

  /** address || {}. */
  function AddressOf(obj: map<string, Value>): Value {
    if "address" in obj && Truthy(obj["address"]) then obj["address"] else Obj(map[])
  }

  /** The ...rest of the destructuring: every top-level key other than name, age and address. */
  function Rest(obj: map<string, Value>): map<string, Value> {
    map k | k in obj && k != "name" && k != "age" && k != "address" :: obj[k]
  }

  /**
   * The validation and normalization of one filled object. The name test comes first; the
   * row is kept exactly when a name part is non-empty and the age parses into 1..120.
   */
  function Normalize(obj: map<string, Value>): Result<User, RowError> {
    var first := FirstName(obj);
    var last := LastName(obj);
    var n := AgeOf(obj);
    if !Truthy(first) && !Truthy(last) then Err(MissingName)
    else if n.None? || n.value <= 0 || n.value > 120 then Err(InvalidAge)
    else Ok(User(Trim(Text(first) + " " + Text(last)), n.value, AddressOf(obj), Rest(obj)))
  }

  /**
   * A row is kept exactly when a name part is non-empty and the age parses into 1..120; a
   * row without a name is reported as such. The kept user has the trimmed joined name, the
   * parsed age, the address or {}, and every other top-level key with its value.
   */
  lemma NormalizeSpec(obj: map<string, Value>)
    ensures var r := Normalize(obj);
      && (r.Ok? <==> (Truthy(FirstName(obj)) || Truthy(LastName(obj))) && ValidAge(AgeOf(obj)))
      && (r == Err(MissingName) <==> !Truthy(FirstName(obj)) && !Truthy(LastName(obj)))
      && (r.Ok? ==> Some(r.value.age) == AgeOf(obj) && 0 < r.value.age <= 120)
      && (r.Ok? ==> r.value.name == Trim(Text(FirstName(obj)) + " " + Text(LastName(obj))))
      && (r.Ok? ==> r.value.address == AddressOf(obj))
      && (r.Ok? ==> r.value.additionalInfo.Keys == obj.Keys - {"name", "age", "address"})
      && (r.Ok? ==> forall k :: k in r.value.additionalInfo ==> r.value.additionalInfo[k] == obj[k])
  {
  }

  /** parseInt gives NaN for a text that starts with neither white space, a sign nor a digit. */
  lemma NoNumber(s: string)
    requires s != [] && !IsSpace(s[0]) && !IsDigit(s[0]) && s[0] != '-' && s[0] != '+'
    ensures ParseInt(s) == None
  {
    assert TrimStart(s) == s;
  }

  /** An absent age, or one that is an object, is never valid. */
  lemma AgeMustBeText(obj: map<string, Value>)
    requires "age" !in obj || obj["age"].Obj?
    ensures !ValidAge(AgeOf(obj))
  {
    if "age" in obj {
      NoNumber("[object Object]");
    } else {
      NoNumber("undefined");
    }
  }

  /** An age written as a plain numeral passes the age test exactly when it lies in 1..120. */
  lemma AgeBoundaries(n: nat)
    ensures ValidAge(ParseInt(DecimalString(n))) <==> 1 <= n <= 120
  {
    ParseIntDecimal(n);
  }

  /** An age written with a minus sign never passes the age test. */
  lemma AgeNotPositive(n: nat)
    ensures !ValidAge(ParseInt("-" + DecimalString(n)))
  {
    ParseIntNegated(n);
  }

  /**
   * The name test looks at the raw parts, the stored name is trimmed: a first name made of
   * a single space passes the test and yields an empty name.
   */
  lemma BlankNameAccepted()
    ensures var obj := map["name" := Obj(map["firstName" := Str(" ")]), "age" := Str("30")];
      Normalize(obj).Ok? && Normalize(obj).value.name == ""
  {
    var obj := map["name" := Obj(map["firstName" := Str(" ")]), "age" := Str("30")];
    ParseIntDecimal(30);
    assert DecimalString(30) == "30";
    assert AgeOf(obj) == ParseInt("30");
    assert Text(FirstName(obj)) + " " + Text(LastName(obj)) == "  ";
    assert TrimStart("  ") == "";
  }

  /** One data line: trim, skip when blank, split, fill the object, validate and normalize. */
  function ParseLine(headers: seq<string>, raw: string): LineResult {
    var line := Trim(raw);
    if line == "" then Blank
    else match Fill(headers, SplitFields(line), |headers|)
      case None => Broken
      case Some(obj) =>
        match Normalize(obj)
        case Err(why) => Rejected(why)
        case Ok(user) => Accepted(user)
  }
  /** A header without a dot names a top-level key. */
  lemma SplitOne(h: string)
    requires '.' !in h
    ensures Split(h, '.') == [h]
  {
    SplitJoin([h], '.');
  }

  /** A header with one dot names a key inside a top-level object. */
  lemma SplitTwo(a: string, b: string)
    requires '.' !in a && '.' !in b
    ensures Split(a + "." + b, '.') == [a, b]
  {
    SplitJoin([a, b], '.');
    assert Join([a, b], '.') == a + "." + b;
  }

  /** A string that neither starts nor ends with white space is its own trim. */
  lemma TrimFixed(s: string)
    requires s != [] && !IsSpace(s[0]) && !IsSpace(s[|s| - 1])
    ensures Trim(s) == s
  {
    assert TrimStart(s) == s;
  }

  /** The fields of a row of four plain, trimmed values. */
  lemma FourFields(a: string, b: string, c: string, d: string)
    requires Plain(a) && Plain(b) && Plain(c) && Plain(d)
    requires Trim(a) == a && Trim(b) == b && Trim(c) == c && Trim(d) == d
    ensures SplitFields(a + "," + b + "," + c + "," + d) == [a, b, c, d]
  {
    var fs := [a, b, c, d];
    PlainRoundTrip(fs);
    TrimAllOfTrimmed(fs);
    assert Join(fs[3..], ',') == d;
    assert Join(fs[2..], ',') == c + "," + d;
    assert Join(fs[1..], ',') == b + "," + c + "," + d;
    assert Join(fs, ',') == a + "," + (b + "," + c + "," + d);
    assert a + "," + (b + "," + c + "," + d) == a + "," + b + "," + c + "," + d;
  }

  /** The header a.b. */
  function Dotted(a: string, b: string): string {
    a + "." + b
  }

  /** setNested with a two-key path where the first key is absent or holds an object. */
  lemma SetTwo(m: map<string, Value>, a: string, b: string, v: string)
    requires a !in m || m[a].Obj?
    ensures SetPath(m, [a, b], v)
         == Some(m[a := Obj((if a in m then m[a].fields else map[])[b := Str(v)])])
  {
    assert [a, b][1..] == [b];
  }

  /**
   * The object a row fills under headers of the shape n.f, n.l, a, d.c: the two name parts
   * under one object, the age at the top, the city under another object.
   */
  lemma SampleObject(n: string, f: string, l: string, a: string, d: string, c: string,
                     first: string, last: string, age: string, city: string)
    requires '.' !in n && '.' !in f && '.' !in l && '.' !in a && '.' !in d && '.' !in c
    requires n != a && n != d && a != d && f != l
    requires '"' !in first && '"' !in last && '"' !in age && '"' !in city
    ensures Fill([Dotted(n, f), Dotted(n, l), a, Dotted(d, c)], [first, last, age, city], 4)
         == Some(map[n := Obj(map[f := Str(first), l := Str(last)]), a := Str(age), d := Obj(map[c := Str(city)])])
  {
    var hs := [Dotted(n, f), Dotted(n, l), a, Dotted(d, c)];
    var vs := [first, last, age, city];
    SplitTwo(n, f);
    SplitTwo(n, l);
    SplitOne(a);
    SplitTwo(d, c);
    StripQuotesUnwrapped(first);
    StripQuotesUnwrapped(last);
    StripQuotesUnwrapped(age);
    StripQuotesUnwrapped(city);
    var o1 := map[n := Obj(map[f := Str(first)])];
    SetTwo(map[], n, f, first);
    assert Fill(hs, vs, 1) == Some(o1);
    var o2 := map[n := Obj(map[f := Str(first), l := Str(last)])];
    SetTwo(o1, n, l, last);
    assert o1[n].fields[l := Str(last)] == map[f := Str(first), l := Str(last)];
    assert o1[n := Obj(map[f := Str(first), l := Str(last)])] == o2;
    assert Fill(hs, vs, 2) == SetPath(o1, [n, l], last);
    var o3 := o2[a := Str(age)];
    assert Fill(hs, vs, 3) == Some(o3);
    SetTwo(o3, d, c, city);
  }

  /** The object of the sample headers normalizes to the joined name, the age and the address. */
  lemma SampleNormalize(first: string, last: string, age: nat, city: string)
    requires first != "" && 0 < age <= 120
    ensures Normalize(map["name" := Obj(map["firstName" := Str(first), "lastName" := Str(last)]),
                          "age" := Str(DecimalString(age)), "address" := Obj(map["city" := Str(city)])])
         == Ok(User(Trim(first + " " + last), age, Obj(map["city" := Str(city)]), map[]))
  {
    var obj := map["name" := Obj(map["firstName" := Str(first), "lastName" := Str(last)]),
                   "age" := Str(DecimalString(age)), "address" := Obj(map["city" := Str(city)])];
    ParseIntDecimal(age);
    assert AgeOf(obj) == Some(age);
    assert Rest(obj) == map[];
  }

  /**
   * Under the headers name.firstName, name.lastName, age, address.city, a row of plain values
   * with a first name and an age in 1..120 gives the user with the joined name, that age, the
   * address { city } and no extra fields, for instance Jane,Doe,30,Pune. The
   * header texts are parameters fixed by the precondition.
   */
  lemma SampleRow(n: string, f: string, l: string, a: string, d: string, c: string,
                  first: string, last: string, age: nat, city: string)
    requires n == "name" && f == "firstName" && l == "lastName" && a == "age" && d == "address" && c == "city"
    requires Plain(first) && Plain(last) && Plain(city)
    requires Trim(first) == first && Trim(last) == last && Trim(city) == city
    requires first != "" && 0 < age <= 120
    ensures ParseLine([Dotted(n, f), Dotted(n, l), a, Dotted(d, c)],
                      first + "," + last + "," + DecimalString(age) + "," + city)
         == Accepted(User(Trim(first + " " + last), age, Obj(map[c := Str(city)]), map[]))
  {
    var digits := DecimalString(age);
    var line := first + "," + last + "," + digits + "," + city;
    TrimEnds(first);
    TrimEnds(city);
    assert line[0] == first[0];
    assert line[|line| - 1] == if city == "" then ',' else city[|city| - 1];
    TrimFixed(line);
    assert Plain(digits) by {
      forall i | 0 <= i < |digits| ensures digits[i] != '"' && digits[i] != ',' {
        assert IsDigit(digits[i]);
      }
    }
    assert Trim(digits) == digits by {
      assert !IsSpace(digits[0]) && !IsSpace(digits[|digits| - 1]);
      TrimFixed(digits);
    }
    FourFields(first, last, digits, city);
    SampleObject(n, f, l, a, d, c, first, last, digits, city);
    SampleNormalize(first, last, age, city);
  }
}
