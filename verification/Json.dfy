// The flat JSON reader of the request handler, and the objects it reads back.
module Json {
  type Params = map<string, string>

  datatype Parser = Parser(params: Params, key: string, value: string, isKey: bool, isValue: bool, inQuotes: bool)

  const START: Parser := Parser(map[], "", "", true, false, false)

  predicate Skipped(c: char) {
    c == '{' || c == '}' || c == '\t' || c == '\n'
  }

  function PushValue(p: Parser, c: char): Parser {
    if p.isValue then p.(value := p.value + [c]) else p
  }

  /** One character. */
  function Step(p: Parser, c: char): Parser {
    if Skipped(c) then p
    else if c == ':' then if p.inQuotes then PushValue(p, c) else p.(isKey := false, isValue := true)
    else if c == ',' then
      if p.inQuotes then PushValue(p, c) else Parser(p.params[p.key := p.value], "", "", true, false, false)
    else if c == '"' then p.(inQuotes := !p.inQuotes)
    else if p.inQuotes then if p.isKey then p.(key := p.key + [c]) else PushValue(p, c)
    else p
  }

  function Run(p: Parser, s: string): Parser
    decreases |s|
  {
    if s == "" then p else Run(Step(p, s[0]), s[1..])
  }

  function Finish(p: Parser): Params {
    if p.key != "" && p.value != "" then p.params[p.key := p.value] else p.params
  }

  function Parse(body: string): Params {
    Finish(Run(START, body))
  }

  /** The loop over flag variables. */
  method ParseJson(body: string) returns (params: Params)
    ensures params == Parse(body)
  {
    params := map[];
    var key, value := "", "";
    var isKey, isValue, inQuotes := true, false, false;
    var i := 0;
    while i < |body|
      invariant 0 <= i <= |body|
      invariant Run(Parser(params, key, value, isKey, isValue, inQuotes), body[i..]) == Run(START, body)
    {
      var c := body[i];
      assert body[i..][0] == c && body[i..][1..] == body[i + 1..];
      i := i + 1;
      if c == '{' || c == '}' || c == '\t' || c == '\n' {
        continue;
      } else if c == ':' {
        if inQuotes {
          if isValue {
            value := value + [c];
          }
        } else {
          isKey := false;
          isValue := true;
        }
      } else if c == ',' {
        if inQuotes {
          if isValue {
            value := value + [c];
          }
        } else {
          params := params[key := value];
          key := "";
          value := "";
          isKey := true;
          isValue := false;
        }
      } else if c == '"' {
        inQuotes := !inQuotes;
      } else if inQuotes {
        if isKey {
          key := key + [c];
        } else if isValue {
          value := value + [c];
        }
      }
    }
    if key != "" && value != "" {
      params := params[key := value];
    }
  }

  // ---- printed objects ----

  datatype Pair = Pair(key: string, value: string)

  // White space between tokens, as section 2 of RFC 8259 allows.
  predicate Blank(ws: string) {
    forall c :: c in ws ==> c == ' ' || c == '\t' || c == '\r' || c == '\n'
  }

  function Member(p: Pair, ws: string): string {
    "\"" + p.key + "\"" + ws + ":" + ws + "\"" + p.value + "\"" + ws
  }

  function Members(ps: seq<Pair>, ws: string): string {
    if ps == [] then ""
    else if |ps| == 1 then Member(ps[0], ws)
    else Member(ps[0], ws) + "," + ws + Members(ps[1..], ws)
  }

  function Print(ps: seq<Pair>, ws: string): string {
    ws + "{" + ws + Members(ps, ws) + "}" + ws
  }

  // What the reader can carry inside quotes.
  predicate Plain(s: string) {
    forall c :: c in s ==> !Skipped(c) && c != '"'
  }

  predicate PlainPair(p: Pair) {
    Plain(p.key) && Plain(p.value) && ':' !in p.key && ',' !in p.key
  }

  predicate PlainPairs(ps: seq<Pair>) {
    ps == [] || (PlainPair(ps[0]) && PlainPairs(ps[1..]))
  }

  predicate HasKey(ps: seq<Pair>, k: string) {
    ps != [] && (ps[0].key == k || HasKey(ps[1..], k))
  }

  predicate DistinctKeys(ps: seq<Pair>) {
    ps == [] || (!HasKey(ps[1..], ps[0].key) && DistinctKeys(ps[1..]))
  }

  function PutAll(m: Params, ps: seq<Pair>): Params
    decreases |ps|
  {
    if ps == [] then m else PutAll(m[ps[0].key := ps[0].value], ps[1..])
  }

  // ---- reading a printed object ----

  lemma {:induction false} RunConcat(p: Parser, a: string, b: string)
    ensures Run(p, a + b) == Run(Run(p, a), b)
    decreases |a|
  {
    if a == "" {
      assert a + b == b;
    } else {
      assert (a + b)[1..] == a[1..] + b;
      RunConcat(Step(p, a[0]), a[1..], b);
    }
  }

  lemma RunOne(p: Parser, c: char)
    ensures Run(p, [c]) == Step(p, c)
  {
    assert [c][1..] == "";
  }

  lemma {:induction false} RunBlank(p: Parser, ws: string)
    requires Blank(ws) && !p.inQuotes
    ensures Run(p, ws) == p
  {
    if ws == "" {
    } else {
      assert ws[0] in ws && forall c :: c in ws[1..] ==> c in ws;
      RunBlank(p, ws[1..]);
    }
  }

  lemma {:induction false} RunKey(p: Parser, k: string)
    requires p.inQuotes && p.isKey && Plain(k) && ':' !in k && ',' !in k
    ensures Run(p, k) == p.(key := p.key + k)
    decreases |k|
  {
    if k == "" {
      assert p.key + k == p.key;
    } else {
      RunKey(Step(p, k[0]), k[1..]);
      assert p.key + [k[0]] + k[1..] == p.key + k;
    }
  }

  lemma {:induction false} RunValue(p: Parser, v: string)
    requires p.inQuotes && !p.isKey && p.isValue && Plain(v)
    ensures Run(p, v) == p.(value := p.value + v)
    decreases |v|
  {
    if v == "" {
      assert p.value + v == p.value;
    } else {
      RunValue(Step(p, v[0]), v[1..]);
      assert p.value + [v[0]] + v[1..] == p.value + v;
    }
  }

  // A quoted key, then a quoted value.
  lemma RunQuotedKey(m: Params, k: string)
    requires Plain(k) && ':' !in k && ',' !in k
    ensures Run(Parser(m, "", "", true, false, false), "\"" + k + "\"") == Parser(m, k, "", true, false, false)
  {
    hide Run;
    var p := Parser(m, "", "", true, false, false);
    RunConcat(p, "\"" + k, "\"");
    RunConcat(p, "\"", k);
    RunOne(p, '"');
    RunKey(p.(inQuotes := true), k);
    RunOne(Parser(m, "" + k, "", true, false, true), '"');
    assert "" + k == k;
  }

  lemma RunQuotedValue(m: Params, k: string, v: string)
    requires Plain(v)
    ensures Run(Parser(m, k, "", false, true, false), "\"" + v + "\"") == Parser(m, k, v, false, true, false)
  {
    hide Run;
    var p := Parser(m, k, "", false, true, false);
    RunConcat(p, "\"" + v, "\"");
    RunConcat(p, "\"", v);
    RunOne(p, '"');
    RunValue(p.(inQuotes := true), v);
    RunOne(Parser(m, k, "" + v, false, true, true), '"');
    assert "" + v == v;
  }

  lemma RunMember(m: Params, p: Pair, ws: string)
    requires PlainPair(p) && Blank(ws)
    ensures Run(Parser(m, "", "", true, false, false), Member(p, ws)) == Parser(m, p.key, p.value, false, true, false)
  {
    hide Run, Plain, Blank;
    var q := Parser(m, "", "", true, false, false);
    var key, value := "\"" + p.key + "\"", "\"" + p.value + "\"";
    var q1 := Parser(m, p.key, "", true, false, false);
    var q2 := Parser(m, p.key, "", false, true, false);
    RunQuotedKey(m, p.key);
    RunBlank(q1, ws);
    RunOne(q1, ':');
    RunBlank(q2, ws);
    RunQuotedValue(m, p.key, p.value);
    RunBlank(Parser(m, p.key, p.value, false, true, false), ws);
    assert Member(p, ws) == key + ws + ":" + ws + value + ws;
    RunConcat(q, key + ws + ":" + ws + value, ws);
    RunConcat(q, key + ws + ":" + ws, value);
    RunConcat(q, key + ws + ":", ws);
    RunConcat(q, key + ws, ":");
    RunConcat(q, key, ws);
  }

  lemma {:induction false} RunMembers(m: Params, ps: seq<Pair>, ws: string)
    requires ps != [] && PlainPairs(ps) && Blank(ws)
    ensures var last := ps[|ps| - 1];
            Run(Parser(m, "", "", true, false, false), Members(ps, ws)) ==
            Parser(PutAll(m, ps[..|ps| - 1]), last.key, last.value, false, true, false)
    decreases |ps|
  {
    hide Run, PlainPair, Blank, Member;
    var q := Parser(m, "", "", true, false, false);
    RunMember(m, ps[0], ws);
    if |ps| == 1 {
      assert ps[..0] == [];
    } else {
      var m' := m[ps[0].key := ps[0].value];
      var q' := Parser(m', "", "", true, false, false);
      RunConcat(q, Member(ps[0], ws) + "," + ws, Members(ps[1..], ws));
      RunConcat(q, Member(ps[0], ws) + ",", ws);
      RunConcat(q, Member(ps[0], ws), ",");
      RunOne(Parser(m, ps[0].key, ps[0].value, false, true, false), ',');
      RunBlank(q', ws);
      RunMembers(m', ps[1..], ws);
      assert ps[..|ps| - 1][1..] == ps[1..][..|ps| - 2];
    }
  }

  lemma RunPrinted(ps: seq<Pair>, ws: string)
    requires ps != [] && PlainPairs(ps) && Blank(ws)
    ensures var last := ps[|ps| - 1];
            Run(START, Print(ps, ws)) == Parser(PutAll(map[], ps[..|ps| - 1]), last.key, last.value, false, true, false)
  {
    hide Run, PlainPairs, Blank, Members, PutAll;
    var p := Run(START, Members(ps, ws));
    RunMembers(map[], ps, ws);
    RunConcat(START, ws + "{" + ws + Members(ps, ws) + "}", ws);
    RunConcat(START, ws + "{" + ws + Members(ps, ws), "}");
    RunConcat(START, ws + "{" + ws, Members(ps, ws));
    RunConcat(START, ws + "{", ws);
    RunConcat(START, ws, "{");
    RunBlank(START, ws);
    RunOne(START, '{');
    RunOne(p, '}');
    RunBlank(p, ws);
  }

  lemma {:induction false} PutAllSnoc(m: Params, ps: seq<Pair>, p: Pair)
    ensures PutAll(m, ps + [p]) == PutAll(m, ps)[p.key := p.value]
    decreases |ps|
  {
    if ps == [] {
      assert ps + [p] == [p] && [p][1..] == [];
    } else {
      assert (ps + [p])[1..] == ps[1..] + [p];
      PutAllSnoc(m[ps[0].key := ps[0].value], ps[1..], p);
    }
  }

  lemma {:induction false} PutAllKeys(m: Params, ps: seq<Pair>, k: string)
    ensures k in PutAll(m, ps) <==> k in m || HasKey(ps, k)
    ensures !HasKey(ps, k) && k in m ==> PutAll(m, ps)[k] == m[k]
    decreases |ps|
  {
    if ps == [] {
    } else {
      PutAllKeys(m[ps[0].key := ps[0].value], ps[1..], k);
    }
  }

  lemma {:induction false} LastKeyIsNew(ps: seq<Pair>)
    requires ps != [] && DistinctKeys(ps)
    ensures !HasKey(ps[..|ps| - 1], ps[|ps| - 1].key)
  {
    if |ps| > 1 {
      LastKeyIsNew(ps[1..]);
      HasLastKey(ps[1..]);
      assert ps[..|ps| - 1][1..] == ps[1..][..|ps| - 2];
    }
  }

  lemma {:induction false} HasLastKey(ps: seq<Pair>)
    requires ps != []
    ensures HasKey(ps, ps[|ps| - 1].key)
  {
    if |ps| > 1 {
      HasLastKey(ps[1..]);
    }
  }

  /** The map of a list with distinct keys holds every pair of it. */
  lemma {:induction false} PutAllHolds(m: Params, ps: seq<Pair>, i: nat)
    requires DistinctKeys(ps) && i < |ps|
    ensures ps[i].key in PutAll(m, ps) && PutAll(m, ps)[ps[i].key] == ps[i].value
    decreases |ps|
  {
    var m' := m[ps[0].key := ps[0].value];
    if i == 0 {
      PutAllKeys(m', ps[1..], ps[0].key);
    } else {
      PutAllHolds(m', ps[1..], i - 1);
    }
  }

  /** A printed object is read back exactly when its last key and last value are not empty. */
  lemma JsonRoundTrip(ps: seq<Pair>, ws: string)
    requires PlainPairs(ps) && DistinctKeys(ps) && Blank(ws)
    ensures Parse(Print(ps, ws)) == PutAll(map[], ps) <==>
            ps == [] || (ps[|ps| - 1].key != "" && ps[|ps| - 1].value != "")
  {
    hide Run, PlainPairs, Blank, PutAll, Print, HasKey, DistinctKeys;
    if ps == [] {
      EmptyObject(ws);
    } else {
      var init, last := ps[..|ps| - 1], ps[|ps| - 1];
      RunPrinted(ps, ws);
      assert ps == init + [last];
      PutAllSnoc(map[], init, last);
      LastKeyIsNew(ps);
      PutAllKeys(map[], init, last.key);
    }
  }

  lemma EmptyObject(ws: string)
    requires Blank(ws)
    ensures Parse(Print([], ws)) == PutAll(map[], [])
  {
    hide Run, Blank;
    RunConcat(START, ws + "{" + ws + "" + "}", ws);
    RunConcat(START, ws + "{" + ws + "", "}");
    RunConcat(START, ws + "{" + ws, "");
    RunConcat(START, ws + "{", ws);
    RunConcat(START, ws, "{");
    RunBlank(START, ws);
    RunBlank(START, "");
    RunOne(START, '{');
    RunOne(START, '}');
  }
}
