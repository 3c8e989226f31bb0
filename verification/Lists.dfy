// Lists kept as delimiter-joined strings: split, join, and the string edits that remove one entry.
module Lists {
  import opened Tablets
  import opened Format

  // ---- split and join ----

  /** getline over the string: a delimiter at the very end adds no empty entry. */
  function Split(s: string, d: char): (xs: seq<string>)
    ensures forall x :: x in xs ==> d !in x
    decreases |s|
  {
    if s == "" then []
    else
      var i := FindIn(s, 0, {d});
      if i < 0 then [s] else [s[..i]] + Split(s[i + 1..], d)
  }

  function Join(xs: seq<string>, d: char): string {
    if xs == [] then ""
    else if |xs| == 1 then xs[0]
    else xs[0] + [d] + Join(xs[1..], d)
  }

  predicate Free(xs: seq<string>, d: char) {
    forall x :: x in xs ==> d !in x
  }

  predicate EndsWith(s: string, d: char) {
    s != "" && s[|s| - 1] == d
  }

  lemma SplitFirst(x: string, rest: string, d: char)
    requires d !in x
    ensures Split(x + [d] + rest, d) == [x] + Split(rest, d)
  {
    var s := x + [d] + rest;
    assert forall j :: 0 <= j < |x| ==> s[j] == x[j];
    FindInIs(s, 0, {d}, |x|);
    assert s[..|x|] == x && s[|x| + 1..] == rest;
  }

  lemma SplitOne(x: string, d: char)
    requires d !in x && x != ""
    ensures Split(x, d) == [x]
  {
  }

  /** Splitting a joined list gives it back exactly when its last entry is not empty. */
  lemma {:induction false} SplitJoin(xs: seq<string>, d: char)
    requires Free(xs, d)
    ensures Split(Join(xs, d), d) == xs <==> xs == [] || xs[|xs| - 1] != ""
    ensures |Split(Join(xs, d), d)| <= |xs|
  {
    if |xs| == 1 {
      if xs[0] != "" {
        SplitOne(xs[0], d);
        assert xs == [xs[0]];
      }
    } else if |xs| > 1 {
      var rest := xs[1..];
      assert forall x :: x in rest ==> x in xs;
      SplitFirst(xs[0], Join(rest, d), d);
      SplitJoin(rest, d);
      assert xs == [xs[0]] + rest;
      assert Split(Join(xs, d), d)[1..] == Split(Join(rest, d), d);
    }
  }

  lemma JoinCons(x: string, xs: seq<string>, d: char)
    ensures Join([x] + xs, d) == if xs == [] then x else x + [d] + Join(xs, d)
  {
    assert ([x] + xs)[1..] == xs;
  }

  lemma SplitEmpty(s: string, d: char)
    ensures Split(s, d) == [] <==> s == ""
  {
  }

  lemma CutAt(s: string, i: nat)
    requires i < |s|
    ensures s == s[..i] + [s[i]] + s[i + 1..]
  {
  }

  lemma JoinSplitFlat(s: string, d: char)
    requires d !in s
    ensures Join(Split(s, d), d) == s && !EndsWith(s, d)
  {
    if s != "" {
      SplitOne(s, d);
    }
  }

  /** Joining a split string gives it back exactly when it does not end with the delimiter. */
  lemma {:induction false} JoinSplit(s: string, d: char)
    ensures Join(Split(s, d), d) == s <==> !EndsWith(s, d)
    decreases |s|
  {
    hide Join, Split, EndsWith;
    var i := FindIn(s, 0, {d});
    if i < 0 {
      JoinSplitFlat(s, d);
    } else {
      var x, rest := s[..i], s[i + 1..];
      CutAt(s, i);
      SplitFirst(x, rest, d);
      JoinSplit(rest, d);
      JoinCons(x, Split(rest, d), d);
      SplitEmpty(rest, d);
      JoinSplitStep(s, x, rest, Join(Split(rest, d), d), d);
    }
  }

  lemma JoinSplitStep(s: string, x: string, rest: string, back: string, d: char)
    requires s == x + [d] + rest
    ensures EndsWith(s, d) <==> rest == "" || EndsWith(rest, d)
    ensures x + [d] + back == s <==> back == rest
    ensures rest == "" ==> s != x
  {
    assert s[|x| + 1..] == rest;
    assert (x + [d] + back)[|x| + 1..] == back;
  }

  lemma {:induction false} JoinSnoc(xs: seq<string>, x: string, d: char)
    ensures Join(xs + [x], d) == if xs == [] then x else Join(xs, d) + [d] + x
  {
    if |xs| == 1 {
      assert (xs + [x])[1..] == [x];
    } else if |xs| > 1 {
      JoinSnoc(xs[1..], x, d);
      assert (xs + [x])[1..] == xs[1..] + [x];
      assert xs[0] + [d] + (Join(xs[1..], d) + [d] + x) == xs[0] + [d] + Join(xs[1..], d) + [d] + x;
    }
  }

  lemma {:induction false} JoinConcat(a: seq<string>, b: seq<string>, d: char)
    requires a != [] && b != []
    ensures Join(a + b, d) == Join(a, d) + [d] + Join(b, d)
  {
    if |a| == 1 {
      assert (a + b)[1..] == b;
    } else {
      JoinConcat(a[1..], b, d);
      assert (a + b)[1..] == a[1..] + b;
      assert a[0] + [d] + (Join(a[1..], d) + [d] + Join(b, d)) == a[0] + [d] + Join(a[1..], d) + [d] + Join(b, d);
    }
  }

  // ---- lists of message ids ----

  const UID_LENGTH: nat := 32

  predicate IsHex(c: char) {
    '0' <= c <= '9' || 'a' <= c <= 'f'
  }

  /** A message id: an MD5 digest printed in hexadecimal. */
  predicate IsUid(u: string) {
    |u| == UID_LENGTH && forall i :: 0 <= i < |u| ==> IsHex(u[i])
  }

  predicate AllUids(us: seq<string>) {
    forall i :: 0 <= i < |us| ==> IsUid(us[i])
  }

  // ---- the edits ----

  /** string::find: the first place where t occurs in s, or -1. */
  function FindSub(s: string, t: string): (i: int)
    ensures i == -1 || (0 <= i && i + |t| <= |s| && s[i..i + |t|] == t)
  {
    if |t| > |s| then -1
    else if s[..|t|] == t then 0
    else if s == "" then -1
    else
      var i := FindSub(s[1..], t);
      if i < 0 then -1 else i + 1
  }

  predicate OccursAt(s: string, t: string, k: int) {
    0 <= k && k + |t| <= |s| && s[k..k + |t|] == t
  }

  lemma {:induction false} FindSubIs(s: string, t: string, p: nat)
    requires OccursAt(s, t, p)
    requires forall k :: 0 <= k < p ==> !OccursAt(s, t, k)
    ensures FindSub(s, t) == p
  {
    assert s[0..0 + |t|] == s[..|t|];
    if p > 0 {
      assert !OccursAt(s, t, 0);
      forall k | 0 <= k < p ensures OccursAt(s[1..], t, k) == OccursAt(s, t, k + 1) {
        OccursShift(s, t, k);
      }
      FindSubIs(s[1..], t, p - 1);
    }
  }

  lemma OccursShift(s: string, t: string, k: nat)
    requires s != ""
    ensures OccursAt(s[1..], t, k) == OccursAt(s, t, k + 1)
  {
    if k + 1 + |t| <= |s| {
      assert s[1..][k..k + |t|] == s[k + 1..k + 1 + |t|];
    }
  }

  /** replace of the first occurrence. */
  function ReplaceFirst(s: string, t: string, u: string): string {
    var pos := FindSub(s, t);
    if pos < 0 then s else s[..pos] + u + s[pos + |t|..]
  }

  function DropFront(s: string, d: char): string {
    if s != "" && s[0] == d then s[1..] else s
  }

  function DropBack(s: string, d: char): string {
    if EndsWith(s, d) then s[..|s| - 1] else s
  }

  /** What the removal loop writes back: the id cut out, the first double comma made one, a comma at either
      end dropped. */
  function RemoveUid(list: string, uid: string): string {
    DropBack(DropFront(ReplaceFirst(ReplaceFirst(list, uid, ""), ",,", ","), ','), ',')
  }

  /** The edits in place, one after the other. */
  method RemoveInPlace(list: string, uid: string) returns (s: string)
    ensures s == RemoveUid(list, uid)
  {
    hide FindSub;
    s := list;
    var pos := FindSub(s, uid);
    if pos != -1 {
      s := s[..pos] + "" + s[pos + |uid|..];
    }
    ghost var cut := ReplaceFirst(list, uid, "");
    assert s == cut;
    pos := FindSub(s, ",,");
    if pos != -1 {
      s := s[..pos] + "," + s[pos + |",,"|..];
    }
    assert s == ReplaceFirst(cut, ",,", ",");
    hide ReplaceFirst;
    if s != "" && s[0] == ',' {
      s := s[1..];
    }
    if s != "" && s[|s| - 1] == ',' {
      s := s[..|s| - 1];
    }
  }

  function RemoveFirst(us: seq<string>, u: string): (r: seq<string>)
    ensures forall x :: x in r ==> x in us
  {
    if us == [] then [] else if us[0] == u then us[1..] else [us[0]] + RemoveFirst(us[1..], u)
  }

  // ---- the edits refine removal from the list ----

  // In a list of ids every 33rd character is a comma and no other one is.
  lemma {:induction false} JoinAt(us: seq<string>, k: nat)
    requires AllUids(us)
    ensures us != [] ==> |Join(us, ',')| == 33 * |us| - 1
    ensures k < |Join(us, ',')| ==>
            if k % 33 == 32 then Join(us, ',')[k] == ','
            else k / 33 < |us| && IsUid(us[k / 33]) && Join(us, ',')[k] == us[k / 33][k % 33]
  {
    if |us| > 1 {
      JoinAt(us[1..], if k >= 33 then k - 33 else 0);
      var rest := Join(us[1..], ',');
      assert Join(us, ',') == us[0] + [','] + rest;
      if k >= 33 {
        assert (k - 33) / 33 == k / 33 - 1 && (k - 33) % 33 == k % 33;
      }
    }
  }

  lemma JoinAtAll(us: seq<string>)
    requires AllUids(us)
    ensures us != [] ==> |Join(us, ',')| == 33 * |us| - 1
    ensures forall k: nat :: k < |Join(us, ',')| ==> (Join(us, ',')[k] == ',' <==> k % 33 == 32)
  {
    JoinAt(us, 0);
    forall k: nat | k < |Join(us, ',')| ensures Join(us, ',')[k] == ',' <==> k % 33 == 32 {
      JoinAt(us, k);
    }
  }

  lemma CommaInside(us: seq<string>, p: nat)
    requires AllUids(us) && p % 33 != 0 && p + 32 <= |Join(us, ',')|
    ensures ',' in Join(us, ',')[p..p + 32]
  {
    var s, c := Join(us, ','), 33 * (p / 33) + 32;
    JoinAtAll(us);
    assert s[c] == ',' && s[p..p + 32][c - p] == s[c];
  }

  lemma EntryText(us: seq<string>, q: nat)
    requires AllUids(us) && q < |us|
    ensures 33 * q + 32 <= |Join(us, ',')| && Join(us, ',')[33 * q..33 * q + 32] == us[q]
  {
    hide Join;
    var s := Join(us, ',');
    JoinAt(us, 0);
    assert IsUid(us[q]);
    forall i | 0 <= i < 32 ensures s[33 * q + i] == us[q][i] {
      JoinAt(us, 33 * q + i);
      assert (33 * q + i) / 33 == q && (33 * q + i) % 33 == i;
    }
  }

  // An id occurs in the string only where it is an entry of the list.
  lemma UidOccursAsEntry(us: seq<string>, u: string, p: nat)
    requires AllUids(us) && IsUid(u) && OccursAt(Join(us, ','), u, p)
    ensures p % 33 == 0 && p / 33 < |us| && us[p / 33] == u
  {
    hide Join;
    if p % 33 != 0 {
      CommaInside(us, p);
    } else {
      JoinAt(us, p);
      EntryText(us, p / 33);
    }
  }

  // The joined string around one entry.
  lemma JoinAround(a: seq<string>, u: string, b: seq<string>)
    ensures Join(a + [u] + b, ',') ==
            (if a == [] then "" else Join(a, ',') + ",") + u + (if b == [] then "" else "," + Join(b, ','))
  {
    var left := a + [u];
    JoinSnoc(a, u, ',');
    if b == [] {
      assert left + b == left;
    } else {
      JoinConcat(left, b, ',');
    }
  }

  // Before the entry at |a| no entry is u, so u occurs at no earlier place.
  lemma FindUid(a: seq<string>, u: string, b: seq<string>)
    requires AllUids(a) && IsUid(u) && AllUids(b) && u !in a
    ensures FindSub(Join(a + [u] + b, ','), u) == if a == [] then 0 else |Join(a, ',')| + 1
  {
    var us := a + [u] + b;
    var s := Join(us, ',');
    var left, right := if a == [] then "" else Join(a, ',') + ",", if b == [] then "" else "," + Join(b, ',');
    JoinAround(a, u, b);
    JoinAt(a, 0);
    assert |left| == 33 * |a|;
    assert s == left + u + right && s[|left|..|left| + |u|] == u;
    forall k | 0 <= k < |left| ensures !OccursAt(s, u, k) {
      if OccursAt(s, u, k) {
        UidOccursAsEntry(us, u, k);
      }
    }
    FindSubIs(s, u, |left|);
  }

  lemma NoUid(us: seq<string>, u: string)
    requires AllUids(us) && IsUid(u) && u !in us
    ensures FindSub(Join(us, ','), u) == -1
  {
    var s := Join(us, ',');
    if FindSub(s, u) >= 0 {
      UidOccursAsEntry(us, u, FindSub(s, u));
    }
  }

  predicate NoDouble(s: string) {
    forall k :: 0 <= k < |s| - 1 ==> !(s[k] == ',' && s[k + 1] == ',')
  }

  lemma NoDoubleComma(s: string)
    requires NoDouble(s)
    ensures FindSub(s, ",,") == -1
  {
    DoubleAt(s, FindSub(s, ",,"));
  }

  lemma DoubleAt(s: string, k: int)
    ensures OccursAt(s, ",,", k) ==> 0 <= k < |s| - 1 && s[k] == ',' && s[k + 1] == ','
  {
    if OccursAt(s, ",,", k) {
      assert s[k..k + |",,"|][0] == s[k] && s[k..k + |",,"|][1] == s[k + 1];
    }
  }

  lemma UidListShape(us: seq<string>)
    requires AllUids(us)
    ensures NoDouble(Join(us, ','))
    ensures us != [] ==> Join(us, ',') != "" && Join(us, ',')[0] != ',' && !EndsWith(Join(us, ','), ',')
  {
    JoinAtAll(us);
  }

  lemma {:induction false} RemoveFirstSplit(us: seq<string>, u: string) returns (a: seq<string>, b: seq<string>)
    requires u in us
    ensures us == a + [u] + b && u !in a && RemoveFirst(us, u) == a + b
  {
    if us[0] == u {
      a, b := [], us[1..];
    } else {
      var a';
      a', b := RemoveFirstSplit(us[1..], u);
      a := [us[0]] + a';
    }
  }

  lemma {:induction false} RemoveFirstAbsent(us: seq<string>, u: string)
    requires u !in us
    ensures RemoveFirst(us, u) == us
  {
    if us == [] {
    } else {
      RemoveFirstAbsent(us[1..], u);
    }
  }

  // Cutting the id out leaves a double comma, or a comma at one end, or nothing.
  lemma CutOut(a: seq<string>, u: string, b: seq<string>)
    requires AllUids(a) && IsUid(u) && AllUids(b) && u !in a
    ensures ReplaceFirst(Join(a + [u] + b, ','), u, "") ==
            (if a == [] then "" else Join(a, ',') + ",") + (if b == [] then "" else "," + Join(b, ','))
  {
    var s := Join(a + [u] + b, ',');
    var left, right := if a == [] then "" else Join(a, ',') + ",", if b == [] then "" else "," + Join(b, ',');
    FindUid(a, u, b);
    JoinAround(a, u, b);
    assert s == left + u + right;
    assert s[..|left|] == left && s[|left| + |u|..] == right;
    assert left + "" + right == left + right;
  }

  lemma MergeCommas(left: string, right: string)
    requires NoDouble(left) && !EndsWith(left, ',')
    ensures ReplaceFirst(left + ",," + right, ",,", ",") == left + "," + right
  {
    var s := left + ",," + right;
    assert s[|left|..|left| + |",,"|] == ",,";
    forall k | 0 <= k < |left| ensures !OccursAt(s, ",,", k) {
      DoubleAt(s, k);
      assert s[k] == left[k] && (k + 1 < |left| ==> s[k + 1] == left[k + 1]);
    }
    FindSubIs(s, ",,", |left|);
    assert s[..|left|] == left && s[|left| + 2..] == right;
  }

  lemma RemoveNothing(us: seq<string>, u: string)
    requires AllUids(us) && IsUid(u) && u !in us
    ensures RemoveUid(Join(us, ','), u) == Join(us, ',')
  {
    hide FindSub, IsUid;
    NoUid(us, u);
    UidListShape(us);
    NoDoubleComma(Join(us, ','));
  }

  lemma AllUidsAround(a: seq<string>, u: string, b: seq<string>)
    requires AllUids(a + [u] + b)
    ensures AllUids(a) && AllUids(b)
  {
    hide IsUid;
    var us := a + [u] + b;
    assert forall i :: 0 <= i < |a| ==> a[i] == us[i];
    assert forall i :: 0 <= i < |b| ==> b[i] == us[|a| + 1 + i];
  }

  /** The string edits remove the first occurrence of the id from the list, and nothing else. */
  lemma RemoveRefines(us: seq<string>, u: string)
    requires AllUids(us) && IsUid(u)
    ensures RemoveUid(Join(us, ','), u) == Join(RemoveFirst(us, u), ',')
  {
    hide Join, IsUid, AllUids, ReplaceFirst, DropBack, DropFront;
    if u !in us {
      RemoveNothing(us, u);
      RemoveFirstAbsent(us, u);
    } else {
      var a, b := RemoveFirstSplit(us, u);
      AllUidsAround(a, u, b);
      CutOut(a, u, b);
      RemoveTail(a, b);
    }
  }

  lemma RemoveTail(a: seq<string>, b: seq<string>)
    requires AllUids(a) && AllUids(b)
    ensures var cut := (if a == [] then "" else Join(a, ',') + ",") + (if b == [] then "" else "," + Join(b, ','));
            DropBack(DropFront(ReplaceFirst(cut, ",,", ","), ','), ',') == Join(a + b, ',')
  {
    hide FindSub, IsUid;
    UidListShape(a);
    UidListShape(b);
    var ja, jb := Join(a, ','), Join(b, ',');
    if a == [] && b == [] {
      NoDoubleComma("");
    } else if a == [] {
      NoDoubleComma("," + jb);
      assert "" + ("," + jb) == "," + jb && ("," + jb)[1..] == jb && a + b == b;
    } else if b == [] {
      NoDoubleComma(ja + ",");
      assert (ja + ",") + "" == ja + "," && (ja + ",")[..|ja|] == ja && a + b == a;
      assert (ja + ",")[0] == ja[0];
    } else {
      assert (ja + ",") + ("," + jb) == ja + ",," + jb;
      MergeCommas(ja, jb);
      JoinConcat(a, b, ',');
      var joined := ja + "," + jb;
      assert joined[0] == ja[0] && joined[|joined| - 1] == jb[|jb| - 1];
    }
  }

  /** So the list read back is the list with the first occurrence removed. */
  lemma RemovedListSplits(us: seq<string>, u: string)
    requires AllUids(us) && IsUid(u)
    ensures Split(RemoveUid(Join(us, ','), u), ',') == RemoveFirst(us, u)
  {
    RemoveRefines(us, u);
    UidListSplits(RemoveFirst(us, u));
  }

  lemma UidListSplits(us: seq<string>)
    requires forall x :: x in us ==> IsUid(x)
    ensures Split(Join(us, ','), ',') == us
  {
    forall x | x in us ensures ',' !in x {
      assert IsUid(x);
    }
    SplitJoin(us, ',');
    assert us != [] ==> us[|us| - 1] in us;
  }
}
