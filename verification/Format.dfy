// The write-ahead log and the checkpoint file: printers and readers.
// A record is  NAME size .. size LF field LF .. field LF  with one size per field.
module Format {
  import opened Tablets
  import opened Decimals

  datatype Entry = Entry(name: string, fields: seq<string>)

  /** Crash: an uncaught exception or an exit. Otherwise the records recovered. */
  datatype Parsed = Crash | Entries(es: seq<Entry>)

  /** LogReader(true) is apply_log as written: one byte more is skipped after a DELETE record. */
  datatype Reader = LogReader(extraSkip: bool) | TabletReader

  const WS: set<char> := {' ', '\r', '\n'}
  const NUL: char := '\0'

  // ---- tokens ----

  /** find_first_of: the first index from start on that holds one of the characters, or -1. */
  function FindIn(s: string, start: nat, chars: set<char>): (i: int)
    requires start <= |s|
    ensures i == -1 || start <= i < |s|
    ensures i >= 0 ==> s[i] in chars
    ensures forall j :: start <= j < (if i < 0 then |s| else i) ==> s[j] !in chars
    decreases |s| - start
  {
    if start == |s| then -1
    else if s[start] in chars then start
    else FindIn(s, start + 1, chars)
  }

  lemma FindInIs(s: string, start: nat, chars: set<char>, i: nat)
    requires start <= i < |s| && s[i] in chars
    requires forall j :: start <= j < i ==> s[j] !in chars
    ensures FindIn(s, start, chars) == i
  {
  }

  /** The token that starts at start, and the offset of the blank after it (-1 at the end of the line). */
  function GetToken(line: string, start: nat): (r: (string, int))
    requires start <= |line|
    ensures r.1 == -1 || start <= r.1 < |line|
    ensures r.1 >= 0 ==> line[r.1] in WS
  {
    var i := FindIn(line, start, WS);
    (if i < 0 then line[start..] else line[start..i], i)
  }

  /** k size tokens, each read from one past the previous offset; None stands for an exception. */
  function ReadSizes(line: string, offset: int, k: nat): (r: Option<seq<nat>>)
    requires -1 <= offset < |line| || offset == 0 == |line|
    ensures r.Some? ==> |r.value| == k
    decreases k
  {
    if k == 0 then Some([])
    else if offset + 1 > |line| then None
    else
      var (token, next) := GetToken(line, offset + 1);
      var first := SizeOf(token);
      if first == None then None
      else
        var more := ReadSizes(line, next, k - 1);
        if more == None then None else Some([first.value] + more.value)
  }

  // ---- the input stream ----

  /** getline: the line, what follows it, and whether its newline was there. */
  function GetLine(s: string): (r: (string, string, bool))
    requires s != ""
    ensures |r.1| < |s|
    ensures r.2 ==> s == r.0 + "\n" + r.1
    ensures !r.2 ==> s == r.0 && r.1 == ""
    ensures '\n' !in r.0
  {
    var i := FindIn(s, 0, {'\n'});
    if i < 0 then (s, "", false) else (s[..i], s[i + 1..], true)
  }

  function Zeros(n: nat): (z: string)
    ensures |z| == n
    ensures forall i :: 0 <= i < n ==> z[i] == NUL
  {
    seq(n, i => NUL)
  }

  /** Reading n bytes into a zero-filled string; a short read fails the stream. */
  function ReadN(s: string, ok: bool, n: nat): (r: (string, string, bool))
    ensures |r.0| == n && |r.1| <= |s|
    ensures r.2 <==> ok && n <= |s|
    ensures r.2 ==> s == r.0 + r.1
  {
    if !ok then (Zeros(n), s, false)
    else if n <= |s| then (s[..n], s[n..], true)
    else (s + Zeros(n - |s|), "", false)
  }

  /** A seek of one byte; past the end it is not an error. */
  function Skip1(s: string): string {
    if s == "" then "" else s[1..]
  }

  /** The fields of a record, each followed by a one-byte seek; a failed stream stays where it is. */
  function ReadFields(s: string, ok: bool, sizes: seq<nat>): (r: (seq<string>, string, bool))
    ensures |r.0| == |sizes| && |r.1| <= |s|
    ensures forall i :: 0 <= i < |sizes| ==> |r.0[i]| == sizes[i]
    ensures !ok && s == "" ==> !r.2
    ensures !r.2 && (ok || s == "") ==> r.1 == ""
    decreases |sizes|
  {
    if sizes == [] then ([], s, ok)
    else
      var (field, s1, ok1) := ReadN(s, ok, sizes[0]);
      var (fields, s2, ok2) := ReadFields(if ok1 then Skip1(s1) else s1, ok1, sizes[1..]);
      ([field] + fields, s2, ok2)
  }

  /** How many fields a record name announces to this reader; None for an unknown name. */
  function Arity(rd: Reader, name: string): Option<nat> {
    match rd
    case LogReader(_) => if name == "DELETE" then Some(2) else if name == "PUT" then Some(3) else None
    case TabletReader => if name == "DATA" then Some(3) else None
  }

  datatype One = Junk(rest: string) | Bad | Rec(e: Entry, rest: string)

  // A record of a known name, once its line has been read.
  function ReadBody(rd: Reader, name: string, sizes: seq<nat>, body: string, more: bool): (r: One)
    ensures r.Rec? && |r.rest| <= |body| && r.e.name == name && |r.e.fields| == |sizes|
  {
    var (fields, rest, ok) := ReadFields(body, more, sizes);
    Rec(Entry(name, fields), if ok && SkipsAfter(rd, name) then Skip1(rest) else rest)
  }

  /** One round of the read loop. After a failed read nothing more can be read. */
  function ReadOne(rd: Reader, s: string): (r: One)
    requires s != ""
    ensures !r.Bad? ==> |r.rest| < |s|
    ensures r.Rec? ==> Arity(rd, r.e.name) == Some(|r.e.fields|)
  {
    var (line, body, more) := GetLine(s);
    var (name, offset) := GetToken(line, 0);
    var arity := Arity(rd, name);
    if arity == None then if rd.TabletReader? then Bad else Junk(body)
    else
      var sizes := ReadSizes(line, offset, arity.value);
      if sizes == None then Bad else ReadBody(rd, name, sizes.value, body, more)
  }

  predicate SkipsAfter(rd: Reader, name: string) {
    rd == LogReader(true) && name == "DELETE"
  }

  function ReadAll(rd: Reader, s: string): (p: Parsed)
    ensures p.Entries? ==> AllKnown(rd, p.es)
    decreases |s|
  {
    if s == "" then Entries([])
    else
      match ReadOne(rd, s)
      case Bad => Crash
      case Junk(rest) => ReadAll(rd, rest)
      case Rec(e, rest) => Prepend([e], ReadAll(rd, rest))
  }

  function Prepend(es: seq<Entry>, p: Parsed): Parsed {
    if p.Crash? then Crash else Entries(es + p.es)
  }

  // ---- printers ----

  function SizesText(fields: seq<string>): string {
    if fields == [] then "" else " " + Decimal(|fields[0]|) + SizesText(fields[1..])
  }

  function FieldsText(fields: seq<string>): string {
    if fields == [] then "" else fields[0] + "\n" + FieldsText(fields[1..])
  }

  function PrintEntry(e: Entry): string {
    e.name + SizesText(e.fields) + "\n" + FieldsText(e.fields)
  }

  function PrintAll(es: seq<Entry>): string {
    if es == [] then "" else PrintEntry(es[0]) + PrintAll(es[1..])
  }

  function Lengths(fields: seq<string>): (r: seq<nat>)
    ensures |r| == |fields|
  {
    if fields == [] then [] else [|fields[0]|] + Lengths(fields[1..])
  }

  /** Every field is short enough for its size to be read back as an int. */
  predicate FieldsFit(fields: seq<string>) {
    fields == [] || (|fields[0]| < INT_LIMIT && FieldsFit(fields[1..]))
  }

  predicate Fits(e: Entry) {
    FieldsFit(e.fields)
  }

  predicate Known(rd: Reader, e: Entry) {
    Arity(rd, e.name) == Some(|e.fields|)
  }

  // ---- what a reader makes of a printed record ----

  lemma SizesTextPlain(fields: seq<string>)
    ensures '\n' !in SizesText(fields)
    ensures fields != [] ==> SizesText(fields) != "" && SizesText(fields)[0] == ' '
  {
  }

  lemma TokenBetween(a: string, token: string, b: string)
    requires forall j :: 0 <= j < |token| ==> token[j] !in WS
    requires b == "" || b[0] in WS
    ensures GetToken(a + token + b, |a|) == (token, if b == "" then -1 else |a + token|)
  {
    var line := a + token + b;
    assert line[|a|..|a + token|] == token;
    assert forall j :: |a| <= j < |a + token| ==> line[j] == token[j - |a|];
    if b == "" {
      assert line[|a|..] == token;
    } else {
      assert line[|a + token|] == b[0];
      FindInIs(line, |a|, WS, |a + token|);
    }
  }

  lemma SizeToken(pre: string, digits: string, more: string)
    requires AllDigits(digits)
    requires more == "" || more[0] == ' '
    ensures GetToken(pre + (" " + digits + more), |pre| + 1) ==
            (digits, if more == "" then -1 else |pre + " " + digits|)
  {
    assert forall j :: 0 <= j < |digits| ==> IsDigit(digits[j]) && digits[j] !in WS;
    TokenBetween(pre + " ", digits, more);
    assert pre + (" " + digits + more) == pre + " " + digits + more;
  }

  lemma Assoc(a: string, b: string, c: string)
    ensures a + (b + c) == a + b + c
  {
  }

  lemma Regroup(a: string, b: string, c: string, d: string)
    ensures a + (b + c + d) == a + b + c + d
  {
  }

  // Reading k + 1 sizes: the first is digits, the others follow it.
  lemma ReadSizesFirst(pre: string, digits: string, more: string, k: nat)
    requires AllDigits(digits) && SizeOf(digits).Some?
    requires more == "" || more[0] == ' '
    ensures var line := pre + (" " + digits + more);
            var rest := ReadSizes(line, if more == "" then -1 else |pre + " " + digits|, k);
            ReadSizes(line, |pre|, k + 1) == if rest == None then None else Some([SizeOf(digits).value] + rest.value)
  {
    SizeToken(pre, digits, more);
  }

  lemma ReadSizesBad(pre: string, digits: string, more: string, k: nat)
    requires AllDigits(digits) && SizeOf(digits) == None
    requires more == "" || more[0] == ' '
    ensures ReadSizes(pre + (" " + digits + more), |pre|, k + 1) == None
  {
    SizeToken(pre, digits, more);
  }

  lemma {:induction false} ReadSizesText(pre: string, fields: seq<string>)
    requires fields != []
    ensures |pre| < |pre + SizesText(fields)|
    ensures ReadSizes(pre + SizesText(fields), |pre|, |fields|) ==
            if FieldsFit(fields) then Some(Lengths(fields)) else None
    decreases |fields|
  {
    var tail := fields[1..];
    var digits, more := Decimal(|fields[0]|), SizesText(tail);
    var line := pre + (" " + digits + more);
    SizesTextPlain(tail);
    SizeOfDecimal(|fields[0]|);
    assert line == pre + SizesText(fields);
    if |fields[0]| >= INT_LIMIT {
      ReadSizesBad(pre, digits, more, |tail|);
    } else {
      var rest := ReadSizes(line, if more == "" then -1 else |pre + " " + digits|, |tail|);
      ReadSizesFirst(pre, digits, more, |tail|);
      assert rest == if FieldsFit(tail) then Some(Lengths(tail)) else None by {
        if tail != [] {
          ReadSizesText(pre + " " + digits, tail);
          Regroup(pre, " ", digits, more);
        }
      }
      assert ReadSizes(line, |pre|, |fields|) == if rest == None then None else Some([|fields[0]|] + rest.value);
    }
  }

  lemma ReadFirstField(field: string, rest: string)
    ensures ReadN(field + "\n" + rest, true, |field|) == (field, "\n" + rest, true) && Skip1("\n" + rest) == rest
  {
    var s := field + "\n" + rest;
    assert s[..|field|] == field && s[|field|..] == "\n" + rest;
  }

  lemma {:induction false} ReadFieldsText(fields: seq<string>, tail: string)
    ensures ReadFields(FieldsText(fields) + tail, true, Lengths(fields)) == (fields, tail, true)
  {
    hide ReadN, Skip1;
    if fields == [] {
      assert FieldsText(fields) + tail == tail;
    } else {
      var rest := FieldsText(fields[1..]) + tail;
      assert FieldsText(fields) + tail == fields[0] + "\n" + rest;
      ReadFirstField(fields[0], rest);
      assert Lengths(fields)[1..] == Lengths(fields[1..]);
      ReadFieldsText(fields[1..], tail);
      assert [fields[0]] + fields[1..] == fields;
    }
  }

  lemma HeaderTokens(name: string, fields: seq<string>, tail: string)
    requires (name == "PUT" || name == "DELETE" || name == "DATA") && fields != []
    ensures var line := name + SizesText(fields);
            GetLine(line + "\n" + tail) == (line, tail, true) && GetToken(line, 0) == (name, |name|)
  {
    SizesTextPlain(fields);
    var line := name + SizesText(fields);
    TokenBetween("", name, SizesText(fields));
    assert "" + name + SizesText(fields) == line;
    LineBefore(line, tail);
  }

  lemma LineBefore(line: string, tail: string)
    requires '\n' !in line
    ensures GetLine(line + "\n" + tail) == (line, tail, true)
  {
    var s := line + "\n" + tail;
    assert forall j :: 0 <= j < |line| ==> s[j] == line[j];
    FindInIs(s, 0, {'\n'}, |line|);
    assert s[..|line|] == line && s[|line| + 1..] == tail;
  }

  lemma ReadOnePrinted(rd: Reader, e: Entry, tail: string)
    requires Known(rd, e)
    ensures ReadOne(rd, PrintEntry(e) + tail) ==
            if !Fits(e) then Bad else Rec(e, if SkipsAfter(rd, e.name) then Skip1(tail) else tail)
  {
    hide GetLine, GetToken, FindIn, ReadSizes, ReadFields, SizesText, FieldsText, FieldsFit, Lengths;
    var body := FieldsText(e.fields) + tail;
    HeaderTokens(e.name, e.fields, body);
    assert PrintEntry(e) + tail == e.name + SizesText(e.fields) + "\n" + body;
    ReadSizesText(e.name, e.fields);
    ReadFieldsText(e.fields, tail);
  }

  // ---- round trips ----

  predicate AllKnown(rd: Reader, es: seq<Entry>) {
    es == [] || (Known(rd, es[0]) && AllKnown(rd, es[1..]))
  }

  /** Every size can be read back, and no record with an extra skip precedes another record. */
  predicate Clean(rd: Reader, es: seq<Entry>) {
    es == [] || (Fits(es[0]) && (SkipsAfter(rd, es[0].name) ==> es[1..] == []) && Clean(rd, es[1..]))
  }

  /** Reading after one printed record. */
  lemma ReadAllFirst(rd: Reader, e: Entry, tail: string)
    requires Known(rd, e)
    ensures ReadAll(rd, PrintEntry(e) + tail) ==
            if !Fits(e) then Crash
            else Prepend([e], ReadAll(rd, if SkipsAfter(rd, e.name) then Skip1(tail) else tail))
  {
    hide ReadOne, Fits;
    ReadOnePrinted(rd, e, tail);
    assert PrintEntry(e) + tail != "";
  }

  lemma {:induction false} RoundTrip(rd: Reader, es: seq<Entry>)
    requires AllKnown(rd, es) && Clean(rd, es)
    ensures ReadAll(rd, PrintAll(es)) == Entries(es)
  {
    hide PrintEntry, ReadOne, Fits, Known;
    if es == [] {
    } else {
      var e, rest := es[0], es[1..];
      ReadAllFirst(rd, e, PrintAll(rest));
      RoundTrip(rd, rest);
      assert SkipsAfter(rd, e.name) ==> Skip1(PrintAll(rest)) == PrintAll(rest);
      assert [e] + rest == es;
    }
  }

  lemma {:induction false} PrintAllConcat(a: seq<Entry>, b: seq<Entry>)
    ensures PrintAll(a + b) == PrintAll(a) + PrintAll(b)
  {
    hide PrintEntry;
    if a == [] {
      assert a + b == b;
    } else {
      PrintAllConcat(a[1..], b);
      assert (a + b)[0] == a[0] && (a + b)[1..] == a[1..] + b;
      Assoc(PrintEntry(a[0]), PrintAll(a[1..]), PrintAll(b));
    }
  }
}
