// Moves preserve content: what a completed movefile or movefolder leaves behind.
module StorageMoves {
  import opened Tablets
  import opened Format
  import opened Lists
  import opened KvClient
  import opened Storage

  predicate Distinct(keys: seq<string>) {
    keys == [] || (keys[0] !in keys[1..] && Distinct(keys[1..]))
  }

  predicate AllRead(t: Tablet, row: string, keys: seq<string>) {
    forall k :: k in keys ==> Read(t, row, k).Some?
  }

  /** The file's keys are distinct and each of its chunks is there. */
  predicate Stored(t: Tablet, user: string, e: string) {
    Distinct(KeysOf(e)) && AllRead(t, FileRow(user, PathOf(e)), KeysOf(e))
  }

  predicate DistinctFiles(es: seq<string>) {
    forall i, j :: 0 <= i < j < |es| && IsFile(es[i]) && IsFile(es[j]) ==> PathOf(es[i]) != PathOf(es[j])
  }

  // ---- moving the chunks of one file ----

  ghost predicate SameRow(t1: Tablet, row1: string, t2: Tablet, row2: string) {
    forall c :: Cell(t1, row1, c) == Cell(t2, row2, c)
  }

  /** Where a cell's value comes from when keys have been moved from one row to another, or to the same one. */
  function MovedCell(t: Tablet, from: string, to: string, keys: seq<string>, row: string, k: string): Option<string> {
    if k in keys && row == from then None
    else if k in keys && row == to then Cell(t, from, k)
    else Cell(t, row, k)
  }

  lemma MoveOneKey(t: Tablet, from: string, to: string, k: string)
    requires Read(t, from, k).Some?
    ensures var t1 := DoDelete(DoPut(t, to, k, Read(t, from, k).value), from, k);
            forall r, c :: Cell(t1, r, c) == MovedCell(t, from, to, [k], r, c)
  {
    var v := Read(t, from, k).value;
    forall r, c ensures Cell(DoDelete(DoPut(t, to, k, v), from, k), r, c) == MovedCell(t, from, to, [k], r, c) {
      ApplyCell(t, Put(to, k, v), r, c);
      ApplyCell(DoPut(t, to, k, v), Delete(from, k), r, c);
    }
  }

  lemma {:induction false} MoveKeysCells(t: Tablet, from: string, to: string, keys: seq<string>)
    requires Distinct(keys) && AllRead(t, from, keys)
    ensures var m := MoveKeys(t, from, to, keys);
            !m.failed && forall r, k :: Cell(m.store, r, k) == MovedCell(t, from, to, keys, r, k)
    decreases |keys|
  {
    if keys == [] {
    } else {
      var k0 := keys[0];
      var t1 := DoDelete(DoPut(t, to, k0, Read(t, from, k0).value), from, k0);
      MoveOneKey(t, from, to, k0);
      hide DoPut, DoDelete, Cell;
      forall k | k in keys[1..] ensures Read(t1, from, k).Some? {
        assert Read(t, from, k).Some? && Cell(t1, from, k) == MovedCell(t, from, to, [k0], from, k);
      }
      MoveKeysCells(t1, from, to, keys[1..]);
      var m := MoveKeys(t, from, to, keys);
      forall r, k ensures Cell(m.store, r, k) == MovedCell(t, from, to, keys, r, k) {
        assert Cell(m.store, r, k) == MovedCell(t1, from, to, keys[1..], r, k);
        assert Cell(t1, r, k) == MovedCell(t, from, to, [k0], r, k);
        assert Cell(t1, from, k) == MovedCell(t, from, to, [k0], from, k);
      }
    }
  }

  lemma {:induction false} FetchSame(t1: Tablet, row1: string, t2: Tablet, row2: string, keys: seq<string>)
    requires forall k :: k in keys ==> Cell(t1, row1, k) == Cell(t2, row2, k)
    ensures Fetch(t1, row1, keys) == Fetch(t2, row2, keys)
  {
    if keys == [] {
    } else {
      FetchSame(t1, row1, t2, row2, keys[1..]);
    }
  }

  // ---- one download before and one after ----

  // Entry by entry, the same keys lead to the same bytes; an entry that only the first list has names no key.
  ghost predicate SameFile(t1: Tablet, e1: string, p1: string, t2: Tablet, e2: string, p2: string, user: string) {
    && (Names(e2, p2) ==> Names(e1, p1))
    && (Names(e1, p1) && !Names(e2, p2) ==> KeysOf(e1) == [])
    && (Names(e1, p1) && Names(e2, p2) ==>
          && KeysOf(e1) == KeysOf(e2)
          && forall k :: k in KeysOf(e1) ==> Cell(t1, FileRow(user, p1), k) == Cell(t2, FileRow(user, p2), k))
  }

  lemma {:induction false} GatherSame(t1: Tablet, es1: seq<string>, p1: string,
                                      t2: Tablet, es2: seq<string>, p2: string, user: string)
    requires |es1| == |es2|
    requires forall i :: 0 <= i < |es1| ==> SameFile(t1, es1[i], p1, t2, es2[i], p2, user)
    ensures Gather(t1, user, es1, p1) == Gather(t2, user, es2, p2)
  {
    if es1 == [] {
    } else {
      assert SameFile(t1, es1[0], p1, t2, es2[0], p2, user);
      forall i | 0 <= i < |es1[1..]| ensures SameFile(t1, es1[1..][i], p1, t2, es2[1..][i], p2, user) {
        assert SameFile(t1, es1[i + 1], p1, t2, es2[i + 1], p2, user);
      }
      GatherSame(t1, es1[1..], p1, t2, es2[1..], p2, user);
      if Names(es1[0], p1) && Names(es2[0], p2) {
        FetchSame(t1, FileRow(user, p1), t2, FileRow(user, p2), KeysOf(es1[0]));
      }
      var more := Gather(t1, user, es1[1..], p1);
      assert "" + more.content == more.content;
    }
  }

  // ---- the index read back ----

  /** A trailing empty entry is the one thing that the string form of a list loses. */
  function Settle(es: seq<string>): seq<string> {
    if es != [] && es[|es| - 1] == "" then es[..|es| - 1] else es
  }

  lemma SettleCons(x: string, es: seq<string>)
    requires es != []
    ensures Settle([x] + es) == [x] + Settle(es)
  {
    assert ([x] + es)[..|es|] == [x] + es[..|es| - 1];
  }

  lemma SettleShort(es: seq<string>)
    requires Free(es, ',') && |es| <= 1
    ensures Split(Join(es, ','), ',') == Settle(es)
  {
    if es != [] && es[0] != "" {
      SplitOne(es[0], ',');
      assert es == [es[0]];
    }
  }

  lemma {:induction false} SplitJoinSettles(es: seq<string>)
    requires Free(es, ',')
    ensures Split(Join(es, ','), ',') == Settle(es)
  {
    hide Split, Settle, FindIn;
    if |es| <= 1 {
      SettleShort(es);
    } else {
      var rest := es[1..];
      assert forall x :: x in rest ==> x in es;
      SplitFirst(es[0], Join(rest, ','), ',');
      SplitJoinSettles(rest);
      assert es == [es[0]] + rest;
      SettleCons(es[0], rest);
    }
  }

  lemma {:induction false} GatherSnocFolder(t: Tablet, user: string, es: seq<string>, e: string, path: string)
    requires !Names(e, path)
    ensures Gather(t, user, es + [e], path) == Gather(t, user, es, path)
  {
    if es == [] {
      assert es + [e] == [e] && [e][1..] == [];
    } else {
      assert (es + [e])[1..] == es[1..] + [e];
      GatherSnocFolder(t, user, es[1..], e, path);
    }
  }

  lemma GatherSettle(t: Tablet, user: string, es: seq<string>, path: string)
    ensures Gather(t, user, Settle(es), path) == Gather(t, user, es, path)
  {
    if Settle(es) != es {
      assert es == Settle(es) + [""];
      GatherSnocFolder(t, user, Settle(es), "", path);
    }
  }

  lemma RowsDiffer(user: string, p: string, q: string)
    ensures FileRow(user, p) == FileRow(user, q) ==> p == q
    ensures FileRow(user, p) != user
  {
    var pre := user + ":";
    assert (pre + p)[|pre|..] == p && (pre + q)[|pre|..] == q;
    assert |FileRow(user, p)| > |user|;
  }

  // The index cell is still what was read, so the conditional put succeeds.
  lemma IndexWritten(t: Tablet, stored: Tablet, user: string, text: string)
    requires user != "" && SameRow(stored, user, t, user)
    ensures var t' := ServeCPut(stored, user, INDEX_COL, Index(t, user), text).0;
            && Index(t', user) == text
            && (forall c :: c != INDEX_COL ==> Cell(t', user, c) == Cell(t, user, c))
            && forall r :: r != user ==> SameRow(t', r, stored, r)
  {
    assert Cell(stored, user, INDEX_COL) == Cell(t, user, INDEX_COL);
    assert CPutCode(stored, user, INDEX_COL, Index(t, user)) == OK;
    var touched := TouchRow(stored, user);
    TouchRowKeepsCells(stored, user);
    forall r, c ensures Cell(DoPut(touched, user, INDEX_COL, text), r, c) ==
                        if r == user && c == INDEX_COL then Some(text) else Cell(stored, r, c) {
      ApplyCell(touched, Put(user, INDEX_COL, text), r, c);
      assert Cell(touched, r, c) == Cell(stored, r, c);
    }
  }

  lemma Reindexed(t: Tablet, user: string, m: Moved, es: seq<string>)
    requires user != "" && !m.failed && SameRow(m.store, user, t, user) && Free(es, ',')
    ensures var t' := Reindex(t, user, m, es);
            && Listing(t', user) == Settle(es)
            && (forall c :: c != INDEX_COL ==> Cell(t', user, c) == Cell(t, user, c))
            && forall r :: r != user ==> SameRow(t', r, m.store, r)
  {
    IndexWritten(t, m.store, user, Join(es, ','));
    SplitJoinSettles(es);
  }

  // ---- entries ----

  lemma EntryParts(e: string)
    requires IsFile(e)
    ensures e == PathOf(e) + ":" + e[Colon(e) + 1..] && ':' !in PathOf(e)
  {
  }

  lemma FileEntry(path: string, keys: string)
    requires ':' !in path
    ensures var e := path + ":" + keys; IsFile(e) && PathOf(e) == path && KeysOf(e) == Split(keys, '+')
  {
    var e := path + ":" + keys;
    assert forall j :: 0 <= j < |path| ==> e[j] == path[j];
    FindInIs(e, 0, {':'}, |path|);
    assert e[..|path|] == path && e[|path| + 1..] == keys;
  }

  lemma PrefixOfPath(path: string, keys: string, from: string)
    requires ':' !in from
    ensures from <= path + ":" + keys <==> from <= path
  {
    var e := path + ":" + keys;
    if |path| < |from| <= |e| {
      assert e[|path|] == ':' && from[|path|] in from;
    } else if |from| <= |path| {
      assert e[..|from|] == path[..|from|];
    }
  }

  // Renaming an entry renames its path and keeps its keys.
  lemma Renamed(e: string, from: string, target: string)
    requires IsFile(e) && ':' !in target && ':' !in from && ',' !in target && ',' !in e
    ensures from <= e <==> from <= PathOf(e)
    ensures var e' := NewPath(e, from, target);
            && IsFile(e') && PathOf(e') == NewPath(PathOf(e), from, target) && KeysOf(e') == KeysOf(e) && ',' !in e'
  {
    hide Split;
    var path, keys := PathOf(e), e[Colon(e) + 1..];
    EntryParts(e);
    PrefixOfPath(path, keys, from);
    if from <= e {
      assert e[|from|..] == path[|from|..] + ":" + keys;
      assert target + (path[|from|..] + ":" + keys) == NewPath(path, from, target) + ":" + keys;
      FileEntry(NewPath(path, from, target), keys);
    }
  }

  // ---- what both moves need ----

  ghost predicate ChunksAt(t': Tablet, row': string, t: Tablet, row: string, keys: seq<string>) {
    forall k :: k in keys ==> Cell(t', row', k) == Cell(t, row, k)
  }

  predicate Gone(t: Tablet, row: string, keys: seq<string>) {
    forall k :: k in keys ==> Cell(t, row, k) == None
  }

  lemma NewPathInjective(p: string, q: string, from: string, target: string)
    requires from <= p && from <= q && NewPath(p, from, target) == NewPath(q, from, target)
    ensures p == q
  {
    assert NewPath(p, from, target)[|target|..] == p[|from|..] && NewPath(q, from, target)[|target|..] == q[|from|..];
    assert p == from + p[|from|..] && q == from + q[|from|..];
  }

  lemma RenamedCommaFree(e: string, from: string, target: string)
    requires ',' !in e && ',' !in target
    ensures ',' !in NewPath(e, from, target)
  {
    assert forall x :: x in e[..] ==> x != ',';
    if from <= e {
      assert forall x :: x in e[|from|..] ==> x in e;
    }
  }

  lemma OtherFileSame(t1: Tablet, t2: Tablet, user: string, es: seq<string>, path: string)
    requires SameRow(t1, FileRow(user, path), t2, FileRow(user, path))
    ensures Gather(t1, user, es, path) == Gather(t2, user, es, path)
  {
    hide FileRow, Names, KeysOf, Gather;
    GatherSame(t1, es, path, t2, es, path, user);
  }

  // Writing the index changes no file.
  lemma GatherIgnoresIndex(t1: Tablet, t2: Tablet, user: string, es: seq<string>, path: string)
    requires forall r :: r != user ==> SameRow(t1, r, t2, r)
    ensures Gather(t1, user, es, path) == Gather(t2, user, es, path)
  {
    hide FileRow;
    RowsDiffer(user, path, path);
    OtherFileSame(t1, t2, user, es, path);
  }

  lemma GoneFromRow(t': Tablet, t: Tablet, user: string, path: string, keys: seq<string>)
    requires Gone(t, FileRow(user, path), keys) && forall r :: r != user ==> SameRow(t', r, t, r)
    ensures Gone(t', FileRow(user, path), keys)
  {
    hide FileRow;
    RowsDiffer(user, path, path);
    assert SameRow(t', FileRow(user, path), t, FileRow(user, path));
  }

  /** The keys name chunks that are there and are not empty. */
  predicate Chunks(t: Tablet, row: string, keys: seq<string>) {
    forall k :: k in keys ==> k != "" && Cell(t, row, k).Some? && Cell(t, row, k).value != ""
  }

  // What is fetched from chunks that are there has a length of at least one for every key.
  lemma {:induction false} FetchChunks(t: Tablet, row: string, keys: seq<string>)
    requires Chunks(t, row, keys)
    ensures var f := Fetch(t, row, keys); !f.failed && (f.content == "" <==> keys == [])
  {
    if keys == [] {
    } else {
      assert keys[0] in keys && forall k :: k in keys[1..] ==> k in keys;
      FetchChunks(t, row, keys[1..]);
      var v := Read(t, row, keys[0]);
      assert v.value + Fetch(t, row, keys[1..]).content != "";
    }
  }

  lemma {:induction false} GatherNone(t: Tablet, user: string, es: seq<string>, p: string)
    requires forall m :: 0 <= m < |es| ==> !Names(es[m], p)
    ensures Gather(t, user, es, p) == Fetched("", false)
  {
    if es == [] {
    } else {
      GatherNone(t, user, es[1..], p);
    }
  }

  predicate OnlyNames(es: seq<string>, p: string, i: nat, j: nat) {
    forall m :: 0 <= m < |es| && m != i && m != j ==> !Names(es[m], p)
  }

  lemma {:induction false} GatherSingle(t: Tablet, user: string, es: seq<string>, p: string, i: nat)
    requires i < |es| && Names(es[i], p) && OnlyNames(es, p, i, i)
    ensures Gather(t, user, es, p).content == Fetch(t, FileRow(user, p), KeysOf(es[i])).content
  {
    hide Names, KeysOf, FileRow, Fetch;
    if i == 0 {
      GatherNone(t, user, es[1..], p);
      var f := Fetch(t, FileRow(user, p), KeysOf(es[0]));
      assert f.content + "" == f.content;
    } else {
      assert es[1..][i - 1] == es[i];
      GatherSingle(t, user, es[1..], p, i - 1);
    }
  }

  // ---- movefile ----

  function MovedPath(path: string, from: string, target: string): string {
    if path == from then target else path
  }

  function RenameFile(es: seq<string>, from: string, target: string): seq<string> {
    seq(|es|, i requires 0 <= i < |es| => if Names(es[i], from) then NewPath(es[i], from, target) else es[i])
  }

  predicate FileStored(t: Tablet, user: string, es: seq<string>, from: string) {
    forall i :: 0 <= i < |es| && Names(es[i], from) ==> Stored(t, user, es[i])
  }

  // What the request is given, after its own check for duplicates.
  predicate MovableFile(es: seq<string>, from: string, target: string) {
    ':' !in target && ',' !in target && Free(es, ',') && DistinctFiles(es) && !SomePrefixed(es, target)
  }

  ghost predicate FileMoved(t: Tablet, user: string, from: string, target: string, es: seq<string>, t': Tablet) {
    && (forall r :: r != FileRow(user, from) && r != FileRow(user, target) ==> SameRow(t', r, t, r))
    && (forall j :: 0 <= j < |es| && Names(es[j], from) ==>
          ChunksAt(t', FileRow(user, target), t, FileRow(user, from), KeysOf(es[j])) && Gone(t', FileRow(user, from), KeysOf(es[j])))
  }

  lemma MovableFileRest(t: Tablet, user: string, es: seq<string>, from: string, target: string)
    requires es != [] && MovableFile(es, from, target) && FileStored(t, user, es, from)
    ensures MovableFile(es[1..], from, target) && FileStored(t, user, es[1..], from)
    ensures Names(es[0], from) ==>
            && from != target && ':' !in from && Stored(t, user, es[0])
            && forall j :: 1 <= j < |es| ==> !Names(es[j], from)
  {
    hide FindIn, Stored, KeysOf;
    assert forall x :: x in es[1..] ==> x in es;
    assert forall j :: 0 <= j < |es[1..]| ==> es[1..][j] == es[j + 1];
    assert !(target <= es[0]);
  }

  lemma RenameFileCons(es: seq<string>, from: string, target: string)
    requires es != []
    ensures RenameFile(es, from, target) ==
            [if Names(es[0], from) then NewPath(es[0], from, target) else es[0]] + RenameFile(es[1..], from, target)
  {
    hide Names, NewPath;
  }

  lemma NothingRenamed(es: seq<string>, from: string, target: string)
    requires forall j :: 0 <= j < |es| ==> !Names(es[j], from)
    ensures RenameFile(es, from, target) == es
  {
    hide Names, NewPath;
  }

  lemma {:induction false} MoveFirstMoves(t: Tablet, user: string, from: string, target: string, es: seq<string>)
    requires MovableFile(es, from, target) && FileStored(t, user, es, from)
    ensures var (m, es') := MoveFirst(t, user, from, target, es);
            !m.failed && es' == RenameFile(es, from, target) && FileMoved(t, user, from, target, es, m.store)
  {
    hide MoveKeys, NewPath, KeysOf, Names, FileRow, MovableFile, FileStored, RenameFile, Distinct, AllRead;
    if es == [] {
      NothingRenamed([], from, target);
    } else {
      MovableFileRest(t, user, es, from, target);
      RenameFileCons(es, from, target);
      if Names(es[0], from) {
        NothingRenamed(es[1..], from, target);
        RowsDiffer(user, from, target);
        FirstFileMoves(t, user, from, target, es[0]);
        assert [es[0]][0] == es[0];
        var m := MoveFirst(t, user, from, target, es).0;
        forall j | 0 <= j < |es| && Names(es[j], from)
          ensures ChunksAt(m.store, FileRow(user, target), t, FileRow(user, from), KeysOf(es[j]))
          ensures Gone(m.store, FileRow(user, from), KeysOf(es[j]))
        {
          assert j == 0;
        }
      } else {
        MoveFirstMoves(t, user, from, target, es[1..]);
        var m := MoveFirst(t, user, from, target, es).0;
        forall j | 0 <= j < |es| && Names(es[j], from)
          ensures ChunksAt(m.store, FileRow(user, target), t, FileRow(user, from), KeysOf(es[j]))
          ensures Gone(m.store, FileRow(user, from), KeysOf(es[j]))
        {
          assert es[1..][j - 1] == es[j];
        }
      }
    }
  }

  lemma FirstFileMoves(t: Tablet, user: string, from: string, target: string, e: string)
    requires Names(e, from) && from != target && Stored(t, user, e)
    ensures var m := MoveKeys(t, FileRow(user, from), FileRow(user, target), KeysOf(e));
            !m.failed && FileMoved(t, user, from, target, [e], m.store)
  {
    hide KeysOf, Split, MoveKeys, FileRow, FindIn, Distinct;
    RowsDiffer(user, from, target);
    MoveKeysCells(t, FileRow(user, from), FileRow(user, target), KeysOf(e));
  }

  lemma FileFollows(t: Tablet, user: string, from: string, target: string, es: seq<string>, t': Tablet, i: nat, j: nat)
    requires MovableFile(es, from, target) && FileMoved(t, user, from, target, es, t')
    requires i < |es| && j < |es| && IsFile(es[i])
    ensures SameFile(t', RenameFile(es, from, target)[j], MovedPath(PathOf(es[i]), from, target),
                     t, es[j], PathOf(es[i]), user)
  {
    hide FileRow, KeysOf, Colon, FindIn;
    var p, q := PathOf(es[i]), PathOf(es[j]);
    assert !(target <= es[i]) && !(target <= es[j]);
    EntryParts(es[i]);
    assert p <= es[i] && p != target && q <= es[j] && q != target;
    if Names(es[j], from) {
      EntryParts(es[j]);
      Renamed(es[j], from, target);
    } else if q == p && p != from {
      RowsDiffer(user, p, from);
      RowsDiffer(user, p, target);
      assert SameRow(t', FileRow(user, p), t, FileRow(user, p));
    }
  }

  lemma FileReindexed(t: Tablet, user: string, from: string, target: string)
    requires user != "" && MovableFile(Listing(t, user), from, target) && FileStored(t, user, Listing(t, user), from)
    ensures var es := Listing(t, user);
            var (m, es') := MoveFirst(t, user, from, target, es);
            var t' := Reindex(t, user, m, es');
            && !m.failed && es' == RenameFile(es, from, target) && FileMoved(t, user, from, target, es, m.store)
            && Listing(t', user) == Settle(es')
            && (forall c :: c != INDEX_COL ==> Cell(t', user, c) == Cell(t, user, c))
            && forall r :: r != user ==> SameRow(t', r, m.store, r)
  {
    hide Reindex, FileStored, NewPath, Names, MoveFirst, Listing, Settle, DistinctFiles, SomePrefixed, FileRow;
    var es := Listing(t, user);
    MoveFirstMoves(t, user, from, target, es);
    var (m, es') := MoveFirst(t, user, from, target, es);
    RowsDiffer(user, from, from);
    RowsDiffer(user, target, target);
    assert SameRow(m.store, user, t, user);
    forall i | 0 <= i < |es'| ensures ',' !in es'[i] {
      RenamedCommaFree(es[i], from, target);
    }
    Reindexed(t, user, m, es');
  }

  lemma MovedFileDownloads(t: Tablet, user: string, from: string, target: string, i: nat)
    requires user != "" && i < |Listing(t, user)| && IsFile(Listing(t, user)[i])
    requires MovableFile(Listing(t, user), from, target) && FileStored(t, user, Listing(t, user), from)
    ensures var es := Listing(t, user);
            var (m, es') := MoveFirst(t, user, from, target, es);
            Download(Reindex(t, user, m, es'), user, MovedPath(PathOf(es[i]), from, target)) == Download(t, user, PathOf(es[i]))
  {
    hide Reindex, Gather, MovableFile, FileStored, FileMoved, MovedPath, PathOf, MoveFirst, Listing, Settle, IsFile, RenameFile;
    var es := Listing(t, user);
    var (m, es') := MoveFirst(t, user, from, target, es);
    var p, p' := PathOf(es[i]), MovedPath(PathOf(es[i]), from, target);
    FileReindexed(t, user, from, target);
    var t' := Reindex(t, user, m, es');
    forall j | 0 <= j < |es| ensures SameFile(m.store, es'[j], p', t, es[j], p, user) {
      FileFollows(t, user, from, target, es, m.store, i, j);
    }
    GatherSame(m.store, es', p', t, es, p, user);
    GatherIgnoresIndex(t', m.store, user, es', p');
    GatherSettle(t', user, es', p');
  }

  /** movefile: unless some entry starts with the target, the file downloads the same bytes at the target and
      every other file at its own path, and nothing of it is left behind; the index keeps its order; no other
      row changes. */
  lemma MoveFileKeepsContent(t: Tablet, user: string, from: string, to: string)
    requires user != "" && ':' !in FileTarget(to) && ',' !in FileTarget(to)
    requires DistinctFiles(Listing(t, user)) && FileStored(t, user, Listing(t, user), from)
    ensures var es, target := Listing(t, user), FileTarget(to);
            var (t', existed) := MoveFile(t, user, from, to);
            && (existed <==> SomePrefixed(es, target))
            && (existed ==> t' == t)
            && (!existed ==>
                  && (forall i :: 0 <= i < |es| && IsFile(es[i]) ==>
                        Download(t', user, MovedPath(PathOf(es[i]), from, target)) == Download(t, user, PathOf(es[i])))
                  && (forall i :: 0 <= i < |es| && Names(es[i], from) ==>
                        && ChunksAt(t', FileRow(user, target), t, FileRow(user, from), KeysOf(es[i]))
                        && Gone(t', FileRow(user, from), KeysOf(es[i])))
                  && Listing(t', user) == Settle(RenameFile(es, from, target))
                  && (forall c :: c != INDEX_COL ==> Cell(t', user, c) == Cell(t, user, c))
                  && (forall r :: r != user && r != FileRow(user, from) && r != FileRow(user, target) ==>
                        SameRow(t', r, t, r)))
  {
    hide Reindex, FileStored, DistinctFiles, MovedPath, PathOf, IsFile, MoveFirst, Settle, Download, FileTarget,
      SomePrefixed, RenameFile, FileRow, Split;
    var es, target := Listing(t, user), FileTarget(to);
    if !SomePrefixed(es, target) {
      assert MovableFile(es, from, target);
      hide Listing;
      var (m, es') := MoveFirst(t, user, from, target, es);
      var t' := Reindex(t, user, m, es');
      forall i | 0 <= i < |es| && IsFile(es[i])
        ensures Download(t', user, MovedPath(PathOf(es[i]), from, target)) == Download(t, user, PathOf(es[i]))
      {
        MovedFileDownloads(t, user, from, target, i);
      }
      FileReindexed(t, user, from, target);
      RowsDiffer(user, target, target);
      assert SameRow(t', FileRow(user, target), m.store, FileRow(user, target));
      forall i | 0 <= i < |es| && Names(es[i], from)
        ensures ChunksAt(t', FileRow(user, target), t, FileRow(user, from), KeysOf(es[i])) && Gone(t', FileRow(user, from), KeysOf(es[i]))
      {
        GoneFromRow(t', m.store, user, from, KeysOf(es[i]));
      }
      forall r | r != user && r != FileRow(user, from) && r != FileRow(user, target) ensures SameRow(t', r, t, r) {
        assert SameRow(t', r, m.store, r) && SameRow(m.store, r, t, r);
        assert forall c :: Cell(t', r, c) == Cell(m.store, r, c) == Cell(t, r, c);
      }
    }
  }

  // A renamed file in the index that is read back.
  lemma EntryRenamed(es: seq<string>, from: string, target: string, i: nat, keys: string)
    requires i < |es| && DistinctFiles(es) && ':' !in from && es[i] == from + ":" + keys
    ensures Names(es[i], from) && KeysOf(es[i]) == Split(keys, '+')
    ensures i < |Settle(RenameFile(es, from, target))| && Settle(RenameFile(es, from, target))[i] == target + ":" + keys
    ensures forall j :: 0 <= j < |es| && j != i && es[j] != "" ==>
              j < |Settle(RenameFile(es, from, target))| && Settle(RenameFile(es, from, target))[j] == es[j]
  {
    hide Split, FindIn, PathOf, IsFile;
    FileEntry(from, keys);
    NamesOne(es, i, from);
    assert es[i][|from|..] == ":" + keys;
    assert target + (":" + keys) == target + ":" + keys;
  }

  /** movefile in the words of the request. A path to does not end in a slash, or loses one: it is refused exactly when an
      entry starts with what is left, and otherwise the file is found there, with its keys and its bytes, and no longer
      at its old path. Every other entry and every other file is as it was. */
  lemma MovedFileIsWhereAsked(t: Tablet, user: string, from: string, to: string, at: string, i: nat, keys: string)
    requires to == at + "/" || (to == at && (at == "" || at[|at| - 1] != '/'))
    requires user != "" && ':' !in at && ',' !in at && ':' !in from
    requires DistinctFiles(Listing(t, user)) && FileStored(t, user, Listing(t, user), from)
    requires i < |Listing(t, user)| && Listing(t, user)[i] == from + ":" + keys
    ensures var es := Listing(t, user);
            var (t', existed) := MoveFile(t, user, from, to);
            && (existed <==> exists j :: 0 <= j < |es| && at <= es[j])
            && (existed ==> t' == t)
            && (!existed ==>
                  && i < |Listing(t', user)| && Listing(t', user)[i] == at + ":" + keys
                  && Download(t', user, at) == Download(t, user, from)
                  && (forall k :: k in Split(keys, '+') ==>
                        Cell(t', user + ":" + at, k) == Cell(t, user + ":" + from, k) && Cell(t', user + ":" + from, k) == None)
                  && (forall j :: 0 <= j < |es| && j != i && es[j] != "" ==> j < |Listing(t', user)| && Listing(t', user)[j] == es[j])
                  && (forall j :: 0 <= j < |es| && j != i && IsFile(es[j]) ==>
                        Download(t', user, PathOf(es[j])) == Download(t, user, PathOf(es[j])))
                  && (forall c :: c != "storage" ==> Cell(t', user, c) == Cell(t, user, c)))
  {
    assert FileTarget(to) == at by { AskedPath(to, at); }
    hide Split, MoveFile, FileTarget, Download, Listing, FileStored, DistinctFiles, PathOf, IsFile, Settle, RenameFile, Gone, ChunksAt;
    var es := Listing(t, user);
    var (t', existed) := MoveFile(t, user, from, to);
    MoveFileKeepsContent(t, user, from, to);
    EntryRenamed(es, from, at, i, keys);
    if !existed {
      NamesOne(es, i, from);
      assert Download(t', user, MovedPath(PathOf(es[i]), from, at)) == Download(t, user, PathOf(es[i]));
    }
  }

  lemma AskedPath(to: string, at: string)
    requires to == at + "/" || (to == at && (at == "" || at[|at| - 1] != '/'))
    ensures FileTarget(to) == at
  {
    hide FileTarget;
    if to == at + "/" {
      assert to[..|to| - 1] == at && (FileTarget(to) + "/")[..|to| - 1] == FileTarget(to);
    }
  }

  // ---- movefile beside another client ----

  lemma {:induction false} MoveFirstAt(t: Tablet, user: string, from: string, target: string, es: seq<string>, j: nat)
    requires j < |es| && Names(es[j], from) && DistinctFiles(es)
    ensures MoveFirst(t, user, from, target, es).0 == MoveKeys(t, FileRow(user, from), FileRow(user, target), KeysOf(es[j]))
  {
    hide KeysOf, FileRow, MoveKeys, PathOf, IsFile;
    if j == 0 {
    } else {
      assert IsFile(es[0]) ==> PathOf(es[0]) != PathOf(es[j]);
      assert forall m :: 0 <= m < |es[1..]| ==> es[1..][m] == es[m + 1];
      MoveFirstAt(t, user, from, target, es[1..], j - 1);
    }
  }

  /** The store when the index put of a movefile is refused, because another client has written the index. */
  function AfterRefusal(t: Tablet, user: string, from: string, to: string, other: string): Tablet {
    DoPut(MoveFirst(t, user, from, FileTarget(to), Listing(t, user)).0.store, user, INDEX_COL, other)
  }

  /** The put is refused when its chunks have already moved. The loop starts again and finds none of them: the
      exception ends it with the index still naming the old path. So the file can be downloaded, at either path,
      exactly when it has no chunk. */
  lemma RefusedMoveStrandsIff(t: Tablet, user: string, from: string, to: string, other: string, i: nat, j: nat)
    requires user != "" && MovableFile(Listing(t, user), from, FileTarget(to)) && FileStored(t, user, Listing(t, user), from)
    requires i < |Listing(t, user)| && Names(Listing(t, user)[i], from)
    requires Chunks(t, FileRow(user, from), KeysOf(Listing(t, user)[i]))
    requires other != Index(t, user) && j < |Split(other, ',')| && Split(other, ',')[j] == Listing(t, user)[i]
    requires MovableFile(Split(other, ','), from, FileTarget(to))
    ensures var keys := KeysOf(Listing(t, user)[i]);
            var t1 := AfterRefusal(t, user, from, to, other);
            var (t2, existed) := MoveFile(t1, user, from, to);
            var content := Download(t, user, from);
            && CPutCheck(t1, user, INDEX_COL, Index(t, user)) == FAILED_PRECONDITION
            && (keys != [] ==> t2 == t1 && Listing(t2, user) == Split(other, ','))
            && (Download(t2, user, FileTarget(to)) == content || Download(t2, user, from) == content <==> keys == [])
  {
    hide Split, FindIn, KeysOf, FileRow, MoveFirst, MoveFile, FileTarget, Gather, Names, Cell, Index, CPutCheck, SomePrefixed,
      DistinctFiles, FileStored;
    var es, target := Listing(t, user), FileTarget(to);
    var store := MoveFirst(t, user, from, target, es).0.store;
    var t1 := AfterRefusal(t, user, from, to, other);
    MoveFirstMoves(t, user, from, target, es);
    IndexIs(store, user, other);
    OldContent(t, user, from, es, i);
    if KeysOf(es[i]) == [] {
      RetryWithoutChunks(t1, user, from, to, j);
    } else {
      RowsDiffer(user, from, from);
      assert Cell(store, FileRow(user, from), KeysOf(es[i])[0]) == None;
      assert SameRow(t1, FileRow(user, from), store, FileRow(user, from));
      RetryFindsNothing(t1, user, from, to, j);
    }
  }

  lemma IndexIs(t: Tablet, user: string, other: string)
    ensures var t1 := DoPut(t, user, INDEX_COL, other);
            && Index(t1, user) == other && Listing(t1, user) == Split(other, ',')
            && (forall v1 :: v1 != other ==> CPutCheck(t1, user, INDEX_COL, v1) == FAILED_PRECONDITION)
            && forall r :: r != user ==> SameRow(t1, r, t, r)
  {
  }

  lemma NamesOne(es: seq<string>, i: nat, p: string)
    requires DistinctFiles(es) && i < |es| && Names(es[i], p)
    ensures OnlyNames(es, p, i, i)
  {
    hide PathOf, IsFile;
  }

  lemma OldContent(t: Tablet, user: string, from: string, es: seq<string>, i: nat)
    requires es == Listing(t, user) && DistinctFiles(es) && i < |es| && Names(es[i], from)
    requires Chunks(t, FileRow(user, from), KeysOf(es[i]))
    ensures Download(t, user, from) == "" <==> KeysOf(es[i]) == []
  {
    hide Names, KeysOf, FileRow, Listing;
    NamesOne(es, i, from);
    GatherSingle(t, user, es, from, i);
    FetchChunks(t, FileRow(user, from), KeysOf(es[i]));
  }

  lemma RetryWithoutChunks(t1: Tablet, user: string, from: string, to: string, j: nat)
    requires user != "" && MovableFile(Listing(t1, user), from, FileTarget(to))
    requires j < |Listing(t1, user)| && Names(Listing(t1, user)[j], from) && KeysOf(Listing(t1, user)[j]) == []
    ensures Download(MoveFile(t1, user, from, to).0, user, FileTarget(to)) == ""
  {
    hide MoveFile, FileTarget, Split, Gather;
    var es := Listing(t1, user);
    OnlyEmptyFile(t1, user, es, from, j);
    MoveFileKeepsContent(t1, user, from, to);
    assert MovedPath(PathOf(es[j]), from, FileTarget(to)) == FileTarget(to);
    OldContent(t1, user, from, es, j);
  }

  lemma OnlyEmptyFile(t: Tablet, user: string, es: seq<string>, from: string, j: nat)
    requires DistinctFiles(es) && j < |es| && Names(es[j], from) && KeysOf(es[j]) == []
    ensures FileStored(t, user, es, from)
  {
    hide KeysOf, PathOf, IsFile, FileRow;
    NamesOne(es, j, from);
  }

  // The first get raises.
  lemma RetryFindsNothing(t1: Tablet, user: string, from: string, to: string, j: nat)
    requires MovableFile(Listing(t1, user), from, FileTarget(to))
    requires j < |Listing(t1, user)| && Names(Listing(t1, user)[j], from)
    requires var keys := KeysOf(Listing(t1, user)[j]); keys != [] && Cell(t1, FileRow(user, from), keys[0]) == None
    ensures MoveFile(t1, user, from, to) == (t1, false)
    ensures Download(t1, user, from) == "" && Download(t1, user, FileTarget(to)) == ""
  {
    hide Split, FindIn, KeysOf, FileRow, FileTarget, Index, Colon;
    var es, target := Listing(t1, user), FileTarget(to);
    MoveFirstAt(t1, user, from, target, es, j);
    NamesOne(es, j, from);
    GatherSingle(t1, user, es, from, j);
    forall m | 0 <= m < |es| ensures !Names(es[m], target) {
      assert !(target <= es[m]);
    }
    GatherNone(t1, user, es, target);
  }
}
