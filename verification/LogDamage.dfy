// What a reader must have consumed to recover a record, and from that: the log
// reader as written recovers a log exactly when no DELETE precedes another record.
module LogDamage {
  import opened Tablets
  import opened Decimals
  import opened Format

  // ---- counting bytes ----

  function NonNul(s: string): (n: nat)
    ensures n <= |s|
  {
    if s == "" then 0 else (if s[0] == NUL then 0 else 1) + NonNul(s[1..])
  }

  lemma {:induction false} NonNulConcat(a: string, b: string)
    ensures NonNul(a + b) == NonNul(a) + NonNul(b)
  {
    if a == "" {
      assert a + b == b;
    } else {
      NonNulConcat(a[1..], b);
      assert (a + b)[1..] == a[1..] + b;
    }
  }

  lemma {:induction false} NonNulFull(s: string)
    requires NUL !in s
    ensures NonNul(s) == |s|
  {
    if s == "" {
    } else {
      NonNulFull(s[1..]);
    }
  }

  lemma {:induction false} NonNulZeros(s: string)
    requires forall i :: 0 <= i < |s| ==> s[i] == NUL
    ensures NonNul(s) == 0
  {
    if s == "" {
    } else {
      NonNulZeros(s[1..]);
    }
  }

  lemma NonNulSuffix(s: string, k: nat)
    requires k <= |s|
    ensures NonNul(s) == NonNul(s[..k]) + NonNul(s[k..])
  {
    assert s == s[..k] + s[k..];
    NonNulConcat(s[..k], s[k..]);
  }

  function FieldsNonNul(fields: seq<string>): nat {
    if fields == [] then 0 else NonNul(fields[0]) + FieldsNonNul(fields[1..])
  }

  /** Non-zero bytes a reader must have seen to recover the record. */
  function Weight(e: Entry): nat {
    |e.name| + |SizesText(e.fields)| + FieldsNonNul(e.fields)
  }

  // A part of a string has no more non-zero bytes than the whole.
  lemma NonNulPart(s: string, a: nat, b: nat)
    requires a <= b <= |s|
    ensures NonNul(s) >= NonNul(s[a..b])
  {
    hide NonNul;
    NonNulSuffix(s, a);
    NonNulSuffix(s[a..], b - a);
    assert s[a..][..b - a] == s[a..b];
  }

  // A size token holds the digits of what it denotes.
  lemma SizeDigits(token: string) returns (a: nat, b: nat)
    requires SizeOf(token).Some?
    ensures a < b <= |token| && AllDigits(token[a..b]) && DigitsValue(token[a..b]) == SizeOf(token).value
  {
    hide SkipBlanks, DigitRun, DigitsValue;
    var t := SkipBlanks(token);
    var signed := t != "" && t[0] in {'+', '-'};
    var body := if signed then t[1..] else t;
    var n := DigitRun(body);
    a := |token| - |body|;
    b := a + n;
    assert token[a..] == body && token[a..b] == body[..n];
  }

  // A size token is at least as long as the decimal form of what it denotes.
  lemma SizeOfCost(token: string)
    requires SizeOf(token).Some?
    ensures NonNul(token) >= |Decimal(SizeOf(token).value)|
  {
    hide SizeOf, NonNul;
    var a, b := SizeDigits(token);
    DecimalShortest(token[a..b]);
    NonNulFull(token[a..b]);
    NonNulPart(token, a, b);
  }

  function SizesLength(sizes: seq<nat>): nat {
    if sizes == [] then 0 else 1 + |Decimal(sizes[0])| + SizesLength(sizes[1..])
  }

  lemma {:induction false} SizesTextLength(fields: seq<string>)
    ensures |SizesText(fields)| == SizesLength(Lengths(fields))
  {
    if fields == [] {
    } else {
      SizesTextLength(fields[1..]);
      assert Lengths(fields)[1..] == Lengths(fields[1..]);
    }
  }

  // Splitting a line at the blank after a token.
  lemma TokenSplits(line: string, start: nat)
    requires start <= |line|
    ensures var (token, next) := GetToken(line, start);
            line[start..] == token + (if next < 0 then "" else line[next..])
  {
    hide FindIn;
  }

  lemma TokenCost(line: string, start: nat)
    requires start <= |line|
    ensures var (token, next) := GetToken(line, start);
            NonNul(line[start..]) == NonNul(token) + (if next < 0 then 0 else NonNul(line[next..]))
  {
    var (token, next) := GetToken(line, start);
    hide FindIn, GetToken;
    TokenSplits(line, start);
    NonNulConcat(token, if next < 0 then "" else line[next..]);
    assert NonNul("") == 0;
  }

  lemma ReadSizesUnfold(line: string, offset: nat, k: nat)
    requires offset < |line| && k > 0 && ReadSizes(line, offset, k).Some?
    ensures var (token, next) := GetToken(line, offset + 1);
            && SizeOf(token).Some? && ReadSizes(line, next, k - 1).Some?
            && SizesLength(ReadSizes(line, offset, k).value) ==
               1 + |Decimal(SizeOf(token).value)| + SizesLength(ReadSizes(line, next, k - 1).value)
  {
    var (token, next) := GetToken(line, offset + 1);
    var more := ReadSizes(line, next, k - 1).value;
    var sizes := [SizeOf(token).value] + more;
    assert ReadSizes(line, offset, k) == Some(sizes);
    assert sizes[1..] == more;
  }

  // After the last token of a line the next size is read from its start: from the record name.
  lemma NoSizeAfterEnd(line: string, k: nat)
    requires ReadSizes(line, -1, k).Some? && SizeOf(GetToken(line, 0).0) == None
    ensures k == 0 && SizesLength(ReadSizes(line, -1, k).value) == 0
  {
  }

  lemma NonNulHead(s: string, i: nat)
    requires i < |s| && s[i] != NUL
    ensures NonNul(s[i..]) == 1 + NonNul(s[i + 1..])
  {
    assert s[i..][1..] == s[i + 1..];
  }

  // Sizes read from a blank on cost at least their canonical text.
  lemma {:induction false} SizesCost(line: string, offset: nat, k: nat)
    requires offset < |line| && line[offset] in WS
    requires SizeOf(GetToken(line, 0).0) == None
    requires ReadSizes(line, offset, k).Some?
    ensures SizesLength(ReadSizes(line, offset, k).value) <= NonNul(line[offset..])
    decreases k
  {
    hide SizeOf, GetToken, NonNul, Decimal;
    if k > 0 {
      var (token, next) := GetToken(line, offset + 1);
      ReadSizesUnfold(line, offset, k);
      SizeOfCost(token);
      TokenCost(line, offset + 1);
      NonNulHead(line, offset);
      if next >= 0 {
        SizesCost(line, next, k - 1);
      } else {
        NoSizeAfterEnd(line, k - 1);
      }
    } else {
      assert ReadSizes(line, offset, k) == Some([]);
    }
  }

  // Fields either cost their full text, or they reach the end of the file.
  lemma {:induction false} FieldsCost(s: string, ok: bool, sizes: seq<nat>)
    requires !ok ==> s == ""
    ensures var (fields, rest, _) := ReadFields(s, ok, sizes);
            || |s| >= |FieldsText(fields)| + |rest|
            || (rest == "" && NonNul(s) >= FieldsNonNul(fields))
    decreases |sizes|
  {
    if sizes == [] {
    } else {
      var (field, s1, ok1) := ReadN(s, ok, sizes[0]);
      var s2 := if ok1 then Skip1(s1) else s1;
      var (fields, rest, ok2) := ReadFields(s2, ok1, sizes[1..]);
      FieldsCost(s2, ok1, sizes[1..]);
      assert ([field] + fields)[1..] == fields;
      if ok1 {
        NonNulConcat(field, s1);
        if s1 != "" {
          NonNulSuffix(s1, 1);
        }
      } else {
        NonNulZeros(Zeros(sizes[0] - |s|));
        NonNulConcat(s, Zeros(sizes[0] - |s|));
        assert field == s + Zeros(sizes[0] - |s|);
      }
    }
  }

  lemma {:induction false} LengthsAre(fields: seq<string>, sizes: seq<nat>)
    requires |fields| == |sizes| && forall i :: 0 <= i < |sizes| ==> |fields[i]| == sizes[i]
    ensures Lengths(fields) == sizes
  {
    if fields == [] {
    } else {
      LengthsAre(fields[1..], sizes[1..]);
    }
  }

  // ---- the cost of one record ----

  predicate RecordName(name: string) {
    name == "PUT" || name == "DELETE" || name == "DATA"
  }

  lemma NameFacts(name: string)
    requires RecordName(name)
    ensures SizeOf(name) == None && NonNul(name) == |name|
  {
    hide NonNul, SizeOf;
    assert forall i :: 0 <= i < |name| ==> 'A' <= name[i] <= 'Z';
    NotASize(name);
    NonNulFull(name);
  }

  lemma NotASize(token: string)
    requires token != "" && 'A' <= token[0] <= 'Z'
    ensures SizeOf(token) == None
  {
  }

  lemma ArityFacts(rd: Reader, name: string)
    requires Arity(rd, name).Some?
    ensures RecordName(name) && Arity(rd, name).value > 0
  {
  }

  lemma HeaderCost(line: string, k: nat)
    requires k > 0 && RecordName(GetToken(line, 0).0)
    requires ReadSizes(line, GetToken(line, 0).1, k).Some?
    ensures NonNul(line) >= |GetToken(line, 0).0| + SizesLength(ReadSizes(line, GetToken(line, 0).1, k).value)
  {
    hide SizeOf, GetToken, NonNul, Decimal, SizesLength, FindIn, ReadSizes, RecordName;
    NameFacts(GetToken(line, 0).0);
    TokenCost(line, 0);
    assert line[0..] == line;
    if GetToken(line, 0).1 < 0 {
      NoSizeAfterEnd(line, k);
    } else {
      SizesCost(line, GetToken(line, 0).1, k);
    }
  }

  lemma PrintedLength(e: Entry)
    ensures |PrintEntry(e)| == |e.name| + SizesLength(Lengths(e.fields)) + 1 + |FieldsText(e.fields)|
    ensures Weight(e) == |e.name| + SizesLength(Lengths(e.fields)) + FieldsNonNul(e.fields)
  {
    hide SizesText, FieldsText, SizesLength, Lengths, FieldsNonNul;
    SizesTextLength(e.fields);
  }

  lemma LineCost(s: string)
    requires s != ""
    ensures var (line, body, more) := GetLine(s);
            NonNul(s) >= NonNul(line) + NonNul(body) && |s| == |line| + (if more then 1 else 0) + |body|
  {
    hide NonNul, FindIn;
    var (line, body, more) := GetLine(s);
    if more {
      NonNulConcat(line + "\n", body);
      NonNulConcat(line, "\n");
    } else {
      assert s == line + body;
      NonNulConcat(line, body);
    }
  }

  lemma FieldsTextLonger(fields: seq<string>)
    requires fields != []
    ensures |FieldsText(fields)| > 0
  {
  }

  lemma RecordCost(rd: Reader, s: string)
    requires s != "" && ReadOne(rd, s).Rec?
    ensures var Rec(e, rest) := ReadOne(rd, s);
            || |s| >= |PrintEntry(e)| + |rest|
            || (rest == "" && NonNul(s) >= Weight(e))
  {
    hide GetLine, GetToken, ReadSizes, ReadFields, NonNul, PrintEntry, Weight, SizesLength, Lengths, FieldsText,
         FieldsNonNul, Arity, RecordName, FindIn;
    var (line, body, more) := GetLine(s);
    var (name, offset) := GetToken(line, 0);
    var k := Arity(rd, name).value;
    var sizes := ReadSizes(line, offset, k).value;
    var (fields, rest, ok) := ReadFields(body, more, sizes);
    ArityFacts(rd, name);
    LineCost(s);
    HeaderCost(line, k);
    FieldsCost(body, more, sizes);
    LengthsAre(fields, sizes);
    var e := Entry(name, fields);
    PrintedLength(e);
    var rest' := if ok && SkipsAfter(rd, name) then Skip1(rest) else rest;
    assert ReadOne(rd, s) == Rec(e, rest');
    assert |rest'| <= |rest| && (rest == "" ==> rest' == "");
    FieldsTextLonger(fields);

  }

  // ---- what is left after a record is a suffix ----

  predicate Suffix(t: string, s: string) {
    |t| <= |s| && t == s[|s| - |t|..]
  }

  lemma SuffixTrans(a: string, b: string, c: string)
    requires Suffix(a, b) && Suffix(b, c)
    ensures Suffix(a, c)
  {
  }

  lemma ReadNSuffix(s: string, ok: bool, n: nat)
    ensures var (field, s1, ok1) := ReadN(s, ok, n);
            Suffix(if ok1 then Skip1(s1) else s1, s)
  {
  }

  lemma {:induction false} FieldsSuffix(s: string, ok: bool, sizes: seq<nat>)
    ensures Suffix(ReadFields(s, ok, sizes).1, s)
    decreases |sizes|
  {
    hide ReadN, Skip1, Suffix;
    if sizes == [] {
      SuffixSelf(s);
    } else {
      var (field, s1, ok1) := ReadN(s, ok, sizes[0]);
      var s2 := if ok1 then Skip1(s1) else s1;
      ReadNSuffix(s, ok, sizes[0]);
      FieldsSuffix(s2, ok1, sizes[1..]);
      SuffixTrans(ReadFields(s2, ok1, sizes[1..]).1, s2, s);
    }
  }

  lemma SuffixSelf(s: string)
    ensures Suffix(s, s)
  {
  }

  lemma Skip1Suffix(s: string)
    ensures Suffix(Skip1(s), s) && Suffix(s, s)
  {
  }

  lemma BodySuffix(rd: Reader, name: string, sizes: seq<nat>, body: string, more: bool)
    ensures Suffix(ReadBody(rd, name, sizes, body, more).rest, body)
  {
    hide ReadFields, Suffix, Skip1;
    var rest := ReadFields(body, more, sizes).1;
    FieldsSuffix(body, more, sizes);
    Skip1Suffix(rest);
    SuffixTrans(ReadBody(rd, name, sizes, body, more).rest, rest, body);
  }

  lemma LineSuffix(s: string)
    requires s != ""
    ensures Suffix(GetLine(s).1, s)
  {
    hide FindIn;
  }

  lemma OneSuffix(rd: Reader, s: string)
    requires s != "" && !ReadOne(rd, s).Bad?
    ensures Suffix(ReadOne(rd, s).rest, s)
  {
    hide GetLine, GetToken, ReadSizes, ReadBody, Suffix, Arity;
    var (line, body, more) := GetLine(s);
    var (name, offset) := GetToken(line, 0);
    LineSuffix(s);
    if ReadOne(rd, s).Rec? {
      var sizes := ReadSizes(line, offset, Arity(rd, name).value).value;
      BodySuffix(rd, name, sizes, body, more);
      SuffixTrans(ReadOne(rd, s).rest, body, s);
    }
  }

  lemma SuffixNonNul(t: string, s: string, k: nat, m: nat)
    requires Suffix(t, s) && k <= |t| && m <= |s| - |t| + k
    ensures NonNul(s[m..]) >= NonNul(t[k..])
  {
    hide NonNul;
    var d := |s| - |t| + k - m;
    assert s[m..][d..] == t[k..];
    NonNulSuffix(s[m..], d);
  }

  lemma PrintAllSplit(es: seq<Entry>)
    requires es != []
    ensures PrintAll(es) == PrintAll(es[..|es| - 1]) + PrintEntry(es[|es| - 1])
  {
    var before, last := es[..|es| - 1], es[|es| - 1];
    PrintOne(last);
    hide PrintAll, PrintEntry;
    assert es == before + [last];
    PrintAllConcat(before, [last]);
  }

  lemma PrintOne(e: Entry)
    ensures PrintAll([e]) == PrintEntry(e)
  {
    hide PrintEntry;
    assert [e][1..] == [] && PrintAll([]) == "";
    assert PrintEntry(e) + "" == PrintEntry(e);
  }

  /** Whatever is recovered was paid for: in length, or for the last record in non-zero bytes. */
  ghost predicate Paid(s: string, es: seq<Entry>)
    requires es != []
  {
    var before := |PrintAll(es[..|es| - 1])|;
    || |s| >= |PrintAll(es)|
    || (|s| >= before && NonNul(s[before..]) >= Weight(es[|es| - 1]))
  }

  lemma PaidMonotone(t: string, s: string, es: seq<Entry>)
    requires es != [] && Suffix(t, s) && Paid(t, es)
    ensures Paid(s, es)
  {
    hide PrintAll, NonNul, Weight;
    var before := |PrintAll(es[..|es| - 1])|;
    if |t| >= before {
      SuffixNonNul(t, s, before, before);
    }
  }

  lemma PaidPrepend(t: string, s: string, e: Entry, es: seq<Entry>)
    requires es != [] && Suffix(t, s) && Paid(t, es) && |s| >= |PrintEntry(e)| + |t|
    ensures Paid(s, [e] + es)
  {
    hide PrintEntry, NonNul, Weight;
    var all := [e] + es;
    var n := |es|;
    var before := |PrintAll(es[..n - 1])|;
    assert all[0] == e && all[1..] == es;
    assert all[..n] == [e] + es[..n - 1];
    assert all[..n][0] == e && all[..n][1..] == es[..n - 1];
    assert |PrintAll(all[..n])| == |PrintEntry(e)| + before;
    assert all[n] == es[n - 1];
    if |t| >= before {
      SuffixNonNul(t, s, before, |PrintEntry(e)| + before);
    }
  }

  lemma {:induction false} ReadCost(rd: Reader, s: string, es: seq<Entry>)
    requires ReadAll(rd, s) == Entries(es) && es != []
    ensures Paid(s, es)
    decreases |s|
  {
    hide ReadOne, PrintEntry, NonNul, Weight, Paid, Suffix;
    var one := ReadOne(rd, s);
    OneSuffix(rd, s);
    if one.Junk? {
      ReadCost(rd, one.rest, es);
      PaidMonotone(one.rest, s, es);
    } else {
      var more := es[1..];
      RecordCost(rd, s);
      assert ReadAll(rd, one.rest) == Entries(more) && es == [one.e] + more;
      if more == [] {
        assert es == [one.e];
        PaidOne(s, one.e);
      } else {
        ReadCost(rd, one.rest, more);
        PaidPrepend(one.rest, s, one.e, more);
      }
    }
  }

  lemma PaidOne(s: string, e: Entry)
    requires |s| >= |PrintEntry(e)| || NonNul(s) >= Weight(e)
    ensures Paid(s, [e])
  {
    hide PrintEntry, NonNul, Weight;
    assert [e][..0] == [] && [e][1..] == [];
    assert PrintAll([e]) == PrintEntry(e) + "";
    assert s[0..] == s;
  }

  // ---- the damage done by the extra skip ----

  // One byte short, a name is unknown.
  lemma CutName(e: Entry)
    requires Known(LogReader(true), e)
    ensures e.name != "" && Arity(LogReader(true), e.name[1..]) == None
    ensures forall c :: c in e.name ==> c !in WS
    ensures var header := e.name + SizesText(e.fields);
            header[1..] == e.name[1..] + SizesText(e.fields) && '\n' !in header[1..]
    ensures SizesText(e.fields) == "" || SizesText(e.fields)[0] in WS
  {
    hide SizesText;
    assert e.name != "" && (e.name[1..] != "" ==> e.name[1..][0] != 'D' && e.name[1..][0] != 'P');
    SizesTextPlain(e.fields);
    var header := e.name + SizesText(e.fields);
    assert header[1..] == e.name[1..] + SizesText(e.fields);
  }

  // One byte short, the header of the first record is an unknown line and is dropped.
  lemma DamagedHeader(e: Entry, tail: string)
    requires Known(LogReader(true), e)
    ensures ReadAll(LogReader(true), (PrintEntry(e) + tail)[1..]) ==
            ReadAll(LogReader(true), FieldsText(e.fields) + tail)
  {
    hide SizesText, FieldsText, FindIn, ReadSizes, ReadFields;
    var rd := LogReader(true);
    var cut := (e.name + SizesText(e.fields))[1..];
    var body := FieldsText(e.fields) + tail;
    CutName(e);
    assert (PrintEntry(e) + tail)[1..] == cut + "\n" + body;
    LineBefore(cut, body);
    TokenBetween("", e.name[1..], SizesText(e.fields));
    assert cut == "" + e.name[1..] + SizesText(e.fields);
    assert ReadOne(rd, cut + "\n" + body) == Junk(body);
  }

  lemma {:induction false} SizesTextNonNul(fields: seq<string>)
    ensures NUL !in SizesText(fields) && |SizesText(fields)| >= 2 * |fields|
  {
    if fields == [] {
    } else {
      SizesTextNonNul(fields[1..]);
      assert NUL !in Decimal(|fields[0]|);
    }
  }

  lemma {:induction false} FieldsTextNonNul(fields: seq<string>)
    ensures NonNul(FieldsText(fields)) == FieldsNonNul(fields) + |fields|
  {
    hide NonNul;
    if fields == [] {
      assert NonNul("") == 0 by { NonNulFull(""); }
    } else {
      FieldsTextNonNul(fields[1..]);
      NonNulConcat(fields[0] + "\n", FieldsText(fields[1..]));
      NonNulConcat(fields[0], "\n");
      NonNulFull("\n");
    }
  }

  lemma PrintedNonNul(e: Entry)
    requires Known(LogReader(true), e)
    ensures |e.name + SizesText(e.fields)| >= 7
    ensures NonNul(PrintEntry(e)) <= Weight(e) + 4
    ensures |PrintEntry(e)| >= 7 && NUL !in PrintEntry(e)[..7]
  {
    hide NonNul, SizesText, FieldsText, FieldsNonNul;
    var header := e.name + SizesText(e.fields);
    SizesTextNonNul(e.fields);
    FieldsTextNonNul(e.fields);
    assert NUL !in e.name;
    NonNulFull(header);
    NonNulFull("\n");
    NonNulConcat(header, "\n");
    NonNulConcat(header + "\n", FieldsText(e.fields));
  }

  // Without its first seven bytes a printed record can no longer pay for itself.
  lemma CutRecordIsPoor(e: Entry, h: nat)
    requires Known(LogReader(true), e) && 7 <= h <= |PrintEntry(e)|
    ensures NonNul(PrintEntry(e)[h..]) < Weight(e)
  {
    hide NonNul, PrintEntry, Weight, Known;
    var p := PrintEntry(e);
    PrintedNonNul(e);
    NonNulSuffix(p, h);
    NonNulSuffix(p[..h], 7);
    assert p[..h][..7] == p[..7];
    NonNulFull(p[..7]);
  }

  lemma {:induction false} LastKnown(rd: Reader, es: seq<Entry>)
    requires AllKnown(rd, es) && es != []
    ensures Known(rd, es[|es| - 1])
  {
    if |es| > 1 {
      LastKnown(rd, es[1..]);
    }
  }

  /** After the extra skip the records that follow are never recovered intact. */
  lemma DamagedNeverReadsBack(es: seq<Entry>)
    requires es != [] && AllKnown(LogReader(true), es)
    ensures ReadAll(LogReader(true), PrintAll(es)[1..]) != Entries(es)
  {
    hide ReadAll, NonNul, Weight, PrintAll, FieldsText, SizesText, Known;
    var rd := LogReader(true);
    var e, last := es[0], es[|es| - 1];
    var rest := FieldsText(e.fields) + PrintAll(es[1..]);
    var header := e.name + SizesText(e.fields) + "\n";
    PrintAllFirst(es);
    DamagedHeader(e, PrintAll(es[1..]));
    if ReadAll(rd, rest) == Entries(es) {
      ReadCost(rd, rest, es);
      LastKnown(rd, es);
      PrintAllSplit(es);
      PrintedNonNul(e);
      var before := PrintAll(es[..|es| - 1]);
      var h := |header|;
      assert PrintAll(es) == header + rest;
      assert rest[|before|..] == PrintAll(es)[h + |before|..] == PrintEntry(last)[h..];
      CutRecordIsPoor(last, h);
    }
  }

  lemma PrintAllFirst(es: seq<Entry>)
    requires es != []
    ensures PrintAll(es) == PrintEntry(es[0]) + PrintAll(es[1..])
  {
  }

  /** A reader recovers what was printed exactly when the records are clean for it. */
  lemma {:induction false} ReadsBackIffClean(rd: Reader, es: seq<Entry>)
    requires AllKnown(rd, es)
    ensures ReadAll(rd, PrintAll(es)) == Entries(es) <==> Clean(rd, es)
  {
    hide ReadAll, PrintEntry, Fits, Known;
    if Clean(rd, es) {
      RoundTrip(rd, es);
    } else {
      var e, rest := es[0], es[1..];
      ReadAllFirst(rd, e, PrintAll(rest));
      assert Clean(rd, es) <==> Fits(e) && (SkipsAfter(rd, e.name) ==> rest == []) && Clean(rd, rest);
      assert es == [e] + rest;
      if SkipsAfter(rd, e.name) && rest != [] {
        DamagedNeverReadsBack(rest);
        PrintAllNonempty(rest);
      } else {
        ReadsBackIffClean(rd, rest);
      }
    }
  }

  lemma PrintAllNonempty(es: seq<Entry>)
    requires es != []
    ensures PrintAll(es) != ""
  {
  }
}
