// movefolder: what becomes of every cell, and exactly when every file keeps its content.
module StorageFolders {
  import opened Tablets
  import opened Format
  import opened Lists
  import opened KvClient
  import opened Storage
  import opened StorageMoves

  predicate InFolder(e: string, from: string) {
    IsFile(e) && from <= PathOf(e)
  }

  function NewPathOf(e: string, from: string, target: string): string {
    NewPath(PathOf(e), from, target)
  }

  function RowOfFile(user: string, e: string): string {
    FileRow(user, PathOf(e))
  }

  function NewRowOf(user: string, e: string, from: string, target: string): string {
    FileRow(user, NewPathOf(e, from, target))
  }

  function RenameAll(es: seq<string>, from: string, target: string): seq<string> {
    seq(|es|, i requires 0 <= i < |es| => NewPath(es[i], from, target))
  }

  /** The files of the folder can be read: distinct keys, every chunk there. */
  predicate AllStored(t: Tablet, user: string, es: seq<string>, from: string) {
    forall i :: 0 <= i < |es| && InFolder(es[i], from) ==> Stored(t, user, es[i])
  }

  // What the request is given: a target and a folder that name paths, and an index of distinct paths.
  predicate Movable(es: seq<string>, from: string, target: string) {
    ':' !in from && ':' !in target && ',' !in target && Free(es, ',') && DistinctFiles(es)
  }

  // ---- one entry ----

  lemma EntryMoves(t: Tablet, user: string, from: string, target: string, e: string)
    requires ':' !in from && ':' !in target && ',' !in target && ',' !in e
    requires InFolder(e, from) ==> Stored(t, user, e)
    ensures var m := MoveEntry(t, user, from, target, e);
            && !m.failed
            && forall r, k :: Cell(m.store, r, k) ==
                 if InFolder(e, from)
                 then MovedCell(t, RowOfFile(user, e), NewRowOf(user, e, from, target), KeysOf(e), r, k)
                 else Cell(t, r, k)
  {
    hide KeysOf, Split, MoveKeys, FileRow, FindIn, MovedCell;
    if IsFile(e) {
      Renamed(e, from, target);
      if InFolder(e, from) {
        MoveKeysCells(t, RowOfFile(user, e), NewRowOf(user, e, from, target), KeysOf(e));
      }
    }
  }

  lemma MovableRest(es: seq<string>, from: string, target: string)
    requires es != [] && Movable(es, from, target)
    ensures Movable(es[1..], from, target) && ',' !in es[0]
    ensures forall j :: 1 <= j < |es| && IsFile(es[0]) && IsFile(es[j]) ==> PathOf(es[0]) != PathOf(es[j])
  {
    assert forall x :: x in es[1..] ==> x in es;
    assert forall j :: 0 <= j < |es[1..]| ==> es[1..][j] == es[j + 1];
  }

  lemma RowsOfFiles(user: string, d: string, e: string)
    ensures RowOfFile(user, d) == RowOfFile(user, e) <==> PathOf(d) == PathOf(e)
  {
    RowsDiffer(user, PathOf(d), PathOf(e));
  }

  // Different files of the folder go to different rows.
  lemma NewRowsDiffer(user: string, d: string, e: string, from: string, target: string)
    requires InFolder(d, from) && InFolder(e, from) && PathOf(d) != PathOf(e)
    ensures NewRowOf(user, d, from, target) != NewRowOf(user, e, from, target)
  {
    hide PathOf;
    RowsDiffer(user, NewPathOf(d, from, target), NewPathOf(e, from, target));
    if NewPathOf(d, from, target) == NewPathOf(e, from, target) {
      NewPathInjective(PathOf(d), PathOf(e), from, target);
    }
  }

  lemma RestStillStored(t: Tablet, user: string, from: string, target: string, es: seq<string>)
    requires es != [] && Movable(es, from, target) && AllStored(t, user, es, from)
    ensures var m := MoveEntry(t, user, from, target, es[0]);
            !m.failed && AllStored(m.store, user, es[1..], from)
  {
    hide PathOf, FileRow, KeysOf, MoveEntry, Distinct, NewRowOf, IsFile;
    MovableRest(es, from, target);
    EntryMoves(t, user, from, target, es[0]);
    var t1 := MoveEntry(t, user, from, target, es[0]).store;
    forall i | 0 <= i < |es[1..]| && InFolder(es[1..][i], from) ensures Stored(t1, user, es[1..][i]) {
      var e := es[i + 1];
      assert Stored(t, user, e);
      RowsOfFiles(user, es[0], e);
      forall k | k in KeysOf(e) ensures Read(t1, FileRow(user, PathOf(e)), k).Some? {
        ChunkStaysReadable(t, user, from, target, es[0], t1, e, k);
      }
    }
  }

  lemma ChunkStaysReadable(t: Tablet, user: string, from: string, target: string, e0: string, t1: Tablet, e: string, k: string)
    requires InFolder(e0, from) ==> Stored(t, user, e0)
    requires Read(t, RowOfFile(user, e), k).Some? && (InFolder(e0, from) ==> RowOfFile(user, e0) != RowOfFile(user, e))
    requires Cell(t1, RowOfFile(user, e), k) ==
             if InFolder(e0, from)
             then MovedCell(t, RowOfFile(user, e0), NewRowOf(user, e0, from, target), KeysOf(e0), RowOfFile(user, e), k)
             else Cell(t, RowOfFile(user, e), k)
    ensures Read(t1, FileRow(user, PathOf(e)), k).Some?
  {
    hide PathOf, FileRow, KeysOf, NewPathOf;
    if InFolder(e0, from) && k in KeysOf(e0) {
      assert Read(t, RowOfFile(user, e0), k).Some?;
    }
  }

  // ---- every cell ----

  /** A file of the folder, at n or later in the index, keeps a chunk under that key in that row. */
  predicate TakenFrom(user: string, es: seq<string>, from: string, n: nat, r: string, k: string) {
    exists j :: n <= j < |es| && InFolder(es[j], from) && RowOfFile(user, es[j]) == r && k in KeysOf(es[j])
  }

  /** A file of the folder brings a chunk under that key to that row. */
  predicate GivenTo(user: string, es: seq<string>, from: string, target: string, r: string, k: string) {
    exists i :: 0 <= i < |es| && InFolder(es[i], from) && NewRowOf(user, es[i], from, target) == r && k in KeysOf(es[i])
  }

  /** No file of the folder before i brings a chunk under that key to the row of file i. */
  predicate Clear(user: string, es: seq<string>, from: string, target: string, i: nat, k: string)
    requires i < |es|
  {
    forall h :: 0 <= h < i && InFolder(es[h], from) && k in KeysOf(es[h]) ==>
      NewRowOf(user, es[h], from, target) != RowOfFile(user, es[i])
  }

  lemma TakenShift(user: string, es: seq<string>, from: string, n: nat, r: string, k: string)
    requires es != []
    ensures TakenFrom(user, es, from, n + 1, r, k) <==> TakenFrom(user, es[1..], from, n, r, k)
    ensures TakenFrom(user, es, from, 0, r, k) <==>
            (InFolder(es[0], from) && RowOfFile(user, es[0]) == r && k in KeysOf(es[0])) || TakenFrom(user, es[1..], from, 0, r, k)
  {
    hide InFolder, RowOfFile, KeysOf;
    assert forall j :: 0 <= j < |es[1..]| ==> es[1..][j] == es[j + 1];
    if TakenFrom(user, es, from, n + 1, r, k) {
      var j :| n + 1 <= j < |es| && InFolder(es[j], from) && RowOfFile(user, es[j]) == r && k in KeysOf(es[j]);
      assert es[1..][j - 1] == es[j];
    }
    if TakenFrom(user, es, from, 0, r, k) {
      var j :| 0 <= j < |es| && InFolder(es[j], from) && RowOfFile(user, es[j]) == r && k in KeysOf(es[j]);
      assert j > 0 ==> es[1..][j - 1] == es[j];
    }
  }

  lemma GivenShift(user: string, es: seq<string>, from: string, target: string, r: string, k: string)
    requires es != []
    ensures GivenTo(user, es, from, target, r, k) <==>
            (InFolder(es[0], from) && NewRowOf(user, es[0], from, target) == r && k in KeysOf(es[0]))
            || GivenTo(user, es[1..], from, target, r, k)
  {
    hide InFolder, NewRowOf, KeysOf;
    assert forall j :: 0 <= j < |es[1..]| ==> es[1..][j] == es[j + 1];
    if GivenTo(user, es, from, target, r, k) {
      var j :| 0 <= j < |es| && InFolder(es[j], from) && NewRowOf(user, es[j], from, target) == r && k in KeysOf(es[j]);
      assert j > 0 ==> es[1..][j - 1] == es[j];
    }
  }

  /** The loop completes, whatever the new paths collide with. */
  lemma {:induction false} MoveAllCompletes(t: Tablet, user: string, from: string, target: string, es: seq<string>)
    requires Movable(es, from, target) && AllStored(t, user, es, from)
    ensures var (m, es') := MoveAll(t, user, from, target, es);
            !m.failed && es' == RenameAll(es, from, target) && Free(es', ',')
    decreases |es|
  {
    hide MoveEntry, NewPath, AllStored, DistinctFiles, InFolder;
    if es == [] {
    } else {
      RestStillStored(t, user, from, target, es);
      MovableRest(es, from, target);
      MoveAllCompletes(MoveEntry(t, user, from, target, es[0]).store, user, from, target, es[1..]);
      RenamedCommaFree(es[0], from, target);
      assert RenameAll(es, from, target) == [NewPath(es[0], from, target)] + RenameAll(es[1..], from, target);
    }
  }

  lemma MoveAllUnfolds(t: Tablet, user: string, from: string, target: string, es: seq<string>)
    requires es != [] && !MoveEntry(t, user, from, target, es[0]).failed
    ensures MoveAll(t, user, from, target, es).0 ==
            MoveAll(MoveEntry(t, user, from, target, es[0]).store, user, from, target, es[1..]).0
  {
  }

  /** A cell that no chunk is brought to is emptied if a chunk is taken from it, and otherwise left alone. */
  lemma {:induction false} CellLeft(t: Tablet, user: string, from: string, target: string, es: seq<string>, r: string, k: string)
    requires Movable(es, from, target) && AllStored(t, user, es, from) && !GivenTo(user, es, from, target, r, k)
    ensures Cell(MoveAll(t, user, from, target, es).0.store, r, k) ==
            if TakenFrom(user, es, from, 0, r, k) then None else Cell(t, r, k)
    decreases |es|
  {
    hide Movable, AllStored, MoveEntry, MoveAll, TakenFrom, GivenTo, InFolder, NewRowOf, RowOfFile, KeysOf, Cell;
    if es == [] {
      NothingMoved(t, user, from, target, r, k);
    } else {
      MovableRest(es, from, target);
      RestStillStored(t, user, from, target, es);
      MoveAllUnfolds(t, user, from, target, es);
      FirstOf(t, user, from, target, es, r, k);
      var t1 := MoveEntry(t, user, from, target, es[0]).store;
      GivenShift(user, es, from, target, r, k);
      TakenShift(user, es, from, 0, r, k);
      CellLeft(t1, user, from, target, es[1..], r, k);
    }
  }

  lemma NothingMoved(t: Tablet, user: string, from: string, target: string, r: string, k: string)
    ensures MoveAll(t, user, from, target, []).0.store == t && !TakenFrom(user, [], from, 0, r, k)
  {
  }

  // The first entry's move, seen from one cell.
  lemma FirstOf(t: Tablet, user: string, from: string, target: string, es: seq<string>, r: string, k: string)
    requires es != [] && Movable(es, from, target) && AllStored(t, user, es, from)
    ensures Cell(MoveEntry(t, user, from, target, es[0]).store, r, k) ==
            if InFolder(es[0], from)
            then MovedCell(t, RowOfFile(user, es[0]), NewRowOf(user, es[0], from, target), KeysOf(es[0]), r, k)
            else Cell(t, r, k)
  {
    hide MoveEntry, Stored, MovedCell;
    MovableRest(es, from, target);
    EntryMoves(t, user, from, target, es[0]);
  }

  /** Where nothing was brought to its row before its turn, a file's chunk arrives at its new row, unless a file that
      comes later in the index, or the file itself, takes it from there. */
  lemma {:induction false} ChunkArrives(t: Tablet, user: string, from: string, target: string, es: seq<string>, i: nat, k: string)
    requires Movable(es, from, target) && AllStored(t, user, es, from)
    requires i < |es| && InFolder(es[i], from) && k in KeysOf(es[i]) && Clear(user, es, from, target, i, k)
    ensures var r := NewRowOf(user, es[i], from, target);
            Cell(MoveAll(t, user, from, target, es).0.store, r, k) ==
            if TakenFrom(user, es, from, i, r, k) then None else Cell(t, RowOfFile(user, es[i]), k)
    decreases |es|
  {
    hide Movable, AllStored, MoveEntry, MoveAll, TakenFrom, GivenTo, InFolder, NewRowOf, RowOfFile, KeysOf, Cell, Clear;
    var r, t1, rest := NewRowOf(user, es[i], from, target), MoveEntry(t, user, from, target, es[0]).store, es[1..];
    MovableRest(es, from, target);
    RestStillStored(t, user, from, target, es);
    MoveAllUnfolds(t, user, from, target, es);
    if i == 0 {
      FirstOf(t, user, from, target, es, r, k);
      TakenShift(user, es, from, 0, r, k);
      NotGivenAgain(user, es, from, target, k);
      CellLeft(t1, user, from, target, rest, r, k);
    } else {
      FirstOf(t, user, from, target, es, RowOfFile(user, es[i]), k);
      ClearRest(user, es, from, target, i, k);
      TakenShift(user, es, from, i - 1, r, k);
      assert rest[i - 1] == es[i];
      ChunkArrives(t1, user, from, target, rest, i - 1, k);
    }
  }

  lemma NotGivenAgain(user: string, es: seq<string>, from: string, target: string, k: string)
    requires es != [] && Movable(es, from, target) && InFolder(es[0], from)
    ensures !GivenTo(user, es[1..], from, target, NewRowOf(user, es[0], from, target), k)
  {
    hide PathOf, IsFile, NewRowOf, KeysOf;
    MovableRest(es, from, target);
    forall j | 0 <= j < |es[1..]| && InFolder(es[1..][j], from)
      ensures NewRowOf(user, es[1..][j], from, target) != NewRowOf(user, es[0], from, target)
    {
      NewRowsDiffer(user, es[0], es[j + 1], from, target);
    }
  }

  lemma ClearRest(user: string, es: seq<string>, from: string, target: string, i: nat, k: string)
    requires Movable(es, from, target) && 0 < i < |es| && InFolder(es[i], from) && Clear(user, es, from, target, i, k)
    ensures Clear(user, es[1..], from, target, i - 1, k)
    ensures InFolder(es[0], from) ==>
            RowOfFile(user, es[0]) != RowOfFile(user, es[i])
            && (k in KeysOf(es[0]) ==> NewRowOf(user, es[0], from, target) != RowOfFile(user, es[i]))
  {
    hide PathOf, IsFile, NewRowOf, RowOfFile, KeysOf;
    MovableRest(es, from, target);
    RowsOfFiles(user, es[0], es[i]);
    assert forall j :: 0 <= j < |es[1..]| ==> es[1..][j] == es[j + 1];
  }

  // ---- collisions ----

  predicate NoCommonKey(a: seq<string>, b: seq<string>) {
    forall k :: k in a ==> k !in b
  }

  /** File i of the folder moves to the path of the listed file j. If j moves too, and is not i itself, it must be
      out of the way by then or have no key in common; otherwise neither may have a chunk. */
  predicate Harmless(es: seq<string>, from: string, i: nat, j: nat)
    requires i < |es| && j < |es|
  {
    if InFolder(es[j], from) && j != i then j < i || NoCommonKey(KeysOf(es[i]), KeysOf(es[j]))
    else KeysOf(es[i]) == [] && KeysOf(es[j]) == []
  }

  predicate Collides(es: seq<string>, from: string, target: string, i: nat, j: nat) {
    i < |es| && j < |es| && InFolder(es[i], from) && IsFile(es[j]) && NewPathOf(es[i], from, target) == PathOf(es[j])
  }

  predicate Lossy(es: seq<string>, from: string, target: string, i: nat, j: nat) {
    Collides(es, from, target, i, j) && !Harmless(es, from, i, j)
  }

  /** Every collision of a new path with a listed one is harmless. */
  ghost predicate NoLoss(es: seq<string>, from: string, target: string) {
    forall i: nat, j: nat :: !Lossy(es, from, target, i, j)
  }

  // Up to file i no collision is lossy.
  ghost predicate NoLossBefore(es: seq<string>, from: string, target: string, i: nat) {
    forall h: nat, j: nat :: h < i ==> !Lossy(es, from, target, h, j)
  }

  lemma CollidingRows(user: string, es: seq<string>, from: string, target: string, i: nat, j: nat)
    requires i < |es| && j < |es| && InFolder(es[i], from) && IsFile(es[j])
    ensures NewRowOf(user, es[i], from, target) == RowOfFile(user, es[j]) <==> Collides(es, from, target, i, j)
  {
    hide PathOf, IsFile;
    RowsDiffer(user, NewPathOf(es[i], from, target), PathOf(es[j]));
  }

  lemma ClearBefore(user: string, es: seq<string>, from: string, target: string, i: nat, k: string)
    requires NoLossBefore(es, from, target, i) && i < |es| && InFolder(es[i], from) && k in KeysOf(es[i])
    ensures Clear(user, es, from, target, i, k)
  {
    hide PathOf, KeysOf, NewRowOf, RowOfFile;
    forall h | 0 <= h < i && InFolder(es[h], from) && k in KeysOf(es[h])
      ensures NewRowOf(user, es[h], from, target) != RowOfFile(user, es[i])
    {
      CollidingRows(user, es, from, target, h, i);
      assert !Lossy(es, from, target, h, i);
    }
  }

  // ---- harmless collisions keep every file ----

  lemma NotTaken(user: string, es: seq<string>, from: string, target: string, i: nat, k: string)
    requires NoLoss(es, from, target) && i < |es| && InFolder(es[i], from) && k in KeysOf(es[i])
    ensures !TakenFrom(user, es, from, i, NewRowOf(user, es[i], from, target), k)
  {
    hide PathOf, KeysOf, NewRowOf, RowOfFile;
    forall j | i <= j < |es| && InFolder(es[j], from) && k in KeysOf(es[j])
      ensures RowOfFile(user, es[j]) != NewRowOf(user, es[i], from, target)
    {
      CollidingRows(user, es, from, target, i, j);
      assert !Lossy(es, from, target, i, j);
    }
  }

  lemma NothingForStaying(user: string, es: seq<string>, from: string, target: string, x: nat, k: string)
    requires NoLoss(es, from, target) && DistinctFiles(es)
    requires x < |es| && IsFile(es[x]) && !InFolder(es[x], from)
    ensures !GivenTo(user, es, from, target, RowOfFile(user, es[x]), k)
    ensures !TakenFrom(user, es, from, 0, RowOfFile(user, es[x]), k)
  {
    hide PathOf, KeysOf, NewRowOf, RowOfFile, IsFile;
    forall i | 0 <= i < |es| && InFolder(es[i], from)
      ensures NewRowOf(user, es[i], from, target) != RowOfFile(user, es[x]) || k !in KeysOf(es[i])
      ensures RowOfFile(user, es[i]) != RowOfFile(user, es[x])
    {
      CollidingRows(user, es, from, target, i, x);
      assert !Lossy(es, from, target, i, x);
      RowsOfFiles(user, es[i], es[x]);
    }
  }

  // Each chunk of each file is where its new path says.
  lemma ChunkFollows(t: Tablet, user: string, from: string, target: string, es: seq<string>, x: nat, k: string)
    requires Movable(es, from, target) && AllStored(t, user, es, from) && NoLoss(es, from, target)
    requires x < |es| && IsFile(es[x]) && k in KeysOf(es[x])
    ensures Cell(MoveAll(t, user, from, target, es).0.store, FileRow(user, NewPathOf(es[x], from, target)), k) ==
            Cell(t, FileRow(user, PathOf(es[x])), k)
  {
    hide PathOf, KeysOf, IsFile, AllStored, TakenFrom, GivenTo, Clear, MoveAll, NoLoss, Movable, Cell;
    if InFolder(es[x], from) {
      NoneBefore(es, from, target, x);
      ClearBefore(user, es, from, target, x, k);
      NotTaken(user, es, from, target, x, k);
      ChunkArrives(t, user, from, target, es, x, k);
    } else {
      MovableHas(es, from, target);
      NothingForStaying(user, es, from, target, x, k);
      CellLeft(t, user, from, target, es, RowOfFile(user, es[x]), k);
    }
  }

  lemma NoneBefore(es: seq<string>, from: string, target: string, i: nat)
    requires NoLoss(es, from, target)
    ensures NoLossBefore(es, from, target, i)
  {
  }

  lemma MovableHas(es: seq<string>, from: string, target: string)
    requires Movable(es, from, target)
    ensures ':' !in from && ':' !in target && ',' !in target && DistinctFiles(es)
    ensures forall i :: 0 <= i < |es| ==> ',' !in es[i]
  {
  }

  // Two listed files have the same new path only if they have the same path, or one moves onto the other.
  lemma SameNewPath(es: seq<string>, from: string, target: string, x: nat, j: nat)
    requires DistinctFiles(es) && x < |es| && j < |es| && IsFile(es[x]) && IsFile(es[j]) && x != j
    requires NewPathOf(es[j], from, target) == NewPathOf(es[x], from, target)
    ensures (InFolder(es[j], from) && !InFolder(es[x], from) && Collides(es, from, target, j, x))
            || (InFolder(es[x], from) && !InFolder(es[j], from) && Collides(es, from, target, x, j))
  {
    hide PathOf, IsFile;
    assert PathOf(es[x]) != PathOf(es[j]);
    if InFolder(es[x], from) && InFolder(es[j], from) {
      NewPathInjective(PathOf(es[x]), PathOf(es[j]), from, target);
    }
  }

  lemma FilesFollow(t: Tablet, user: string, from: string, target: string, es: seq<string>, x: nat, j: nat)
    requires Movable(es, from, target) && AllStored(t, user, es, from) && NoLoss(es, from, target)
    requires x < |es| && j < |es| && IsFile(es[x])
    ensures SameFile(MoveAll(t, user, from, target, es).0.store, NewPath(es[j], from, target), NewPathOf(es[x], from, target),
                     t, es[j], PathOf(es[x]), user)
  {
    hide PathOf, NewPath, FileRow, KeysOf, IsFile, AllStored, MoveAll, Movable;
    MovableHas(es, from, target);
    if IsFile(es[j]) {
      Renamed(es[j], from, target);
      if j == x {
        forall k | k in KeysOf(es[x])
          ensures Cell(MoveAll(t, user, from, target, es).0.store, FileRow(user, NewPathOf(es[x], from, target)), k) ==
                  Cell(t, FileRow(user, PathOf(es[x])), k)
        {
          ChunkFollows(t, user, from, target, es, x, k);
        }
      } else if NewPathOf(es[j], from, target) == NewPathOf(es[x], from, target) {
        SameNewPath(es, from, target, x, j);
        assert !Lossy(es, from, target, j, x) && !Lossy(es, from, target, x, j);
      }
    } else {
      FolderStaysFolder(es[j], from, target);
    }
  }

  lemma FolderStaysFolder(e: string, from: string, target: string)
    requires !IsFile(e) && ':' !in target
    ensures !IsFile(NewPath(e, from, target))
  {
    assert forall j :: 0 <= j < |e| ==> e[j] != ':';
  }

  // ---- a lossy collision loses content ----

  /** Every listed file can be read, and none of its chunks is empty. */
  predicate Full(t: Tablet, user: string, e: string) {
    Stored(t, user, e) && forall k :: k in KeysOf(e) ==> Read(t, RowOfFile(user, e), k).value != ""
  }

  predicate AllFull(t: Tablet, user: string, es: seq<string>) {
    forall i :: 0 <= i < |es| && IsFile(es[i]) ==> Full(t, user, es[i])
  }

  lemma FullChunks(t: Tablet, user: string, e: string)
    requires Full(t, user, e)
    ensures Chunks(t, RowOfFile(user, e), KeysOf(e))
  {
    hide KeysOf, PathOf, FileRow, Distinct;
    forall k | k in KeysOf(e) ensures k != "" && Cell(t, RowOfFile(user, e), k).Some? && Cell(t, RowOfFile(user, e), k).value != "" {
      assert Read(t, RowOfFile(user, e), k).Some?;
    }
  }

  lemma {:induction false} FetchShorter(t1: Tablet, row1: string, t2: Tablet, row2: string, keys: seq<string>, lost: string)
    requires Chunks(t2, row2, keys) && lost in keys && Cell(t1, row1, lost) == None
    requires forall k :: k in keys ==> Cell(t1, row1, k) in {None, Cell(t2, row2, k)}
    ensures |Fetch(t1, row1, keys).content| < |Fetch(t2, row2, keys).content|
  {
    FetchChunks(t2, row2, keys);
    var k0 := keys[0];
    assert k0 in keys && forall k :: k in keys[1..] ==> k in keys;
    if Cell(t1, row1, k0) == None {
    } else {
      FetchShorter(t1, row1, t2, row2, keys[1..], lost);
    }
  }

  lemma {:induction false} GatherTwo(t: Tablet, user: string, es: seq<string>, p: string, i: nat, j: nat)
    requires i < j < |es| && Names(es[i], p) && Names(es[j], p) && OnlyNames(es, p, i, j)
    requires !Fetch(t, FileRow(user, p), KeysOf(es[i])).failed
    ensures |Gather(t, user, es, p).content| ==
            |Fetch(t, FileRow(user, p), KeysOf(es[i])).content| + |Fetch(t, FileRow(user, p), KeysOf(es[j])).content|
  {
    hide Names, KeysOf, FileRow, Fetch;
    assert es[1..][j - 1] == es[j];
    if i == 0 {
      GatherSingle(t, user, es[1..], p, j - 1);
    } else {
      assert es[1..][i - 1] == es[i];
      GatherTwo(t, user, es[1..], p, i - 1, j - 1);
    }
  }

  // ---- who is listed at a path afterwards ----

  lemma NamedBefore(es: seq<string>, x: nat)
    requires DistinctFiles(es) && x < |es| && IsFile(es[x])
    ensures Names(es[x], PathOf(es[x])) && OnlyNames(es, PathOf(es[x]), x, x)
  {
    hide PathOf, IsFile;
  }

  lemma RenamedNames(es: seq<string>, from: string, target: string, m: nat, p: string)
    requires Movable(es, from, target) && m < |es|
    ensures Names(RenameAll(es, from, target)[m], p) <==> IsFile(es[m]) && NewPathOf(es[m], from, target) == p
    ensures IsFile(es[m]) ==> KeysOf(RenameAll(es, from, target)[m]) == KeysOf(es[m])
  {
    hide PathOf, NewPath, KeysOf, IsFile, DistinctFiles;
    MovableHas(es, from, target);
    if IsFile(es[m]) {
      Renamed(es[m], from, target);
    } else {
      FolderStaysFolder(es[m], from, target);
    }
  }

  /** After the move the new path of a file that collides is listed for it, and for the other one if that stays. */
  lemma NamedAfter(es: seq<string>, from: string, target: string, i: nat, j: nat)
    requires Movable(es, from, target) && Collides(es, from, target, i, j)
    ensures var es', p := RenameAll(es, from, target), NewPathOf(es[i], from, target);
            && Names(es'[i], p) && KeysOf(es'[i]) == KeysOf(es[i])
            && (if InFolder(es[j], from) then OnlyNames(es', p, i, i)
                else i != j && Names(es'[j], p) && KeysOf(es'[j]) == KeysOf(es[j]) && OnlyNames(es', p, i, j))
  {
    hide PathOf, KeysOf, IsFile, Names, RenameAll;
    var p := NewPathOf(es[i], from, target);
    RenamedLength(es, from, target);
    MovableHas(es, from, target);
    RenamedNames(es, from, target, i, p);
    RenamedNames(es, from, target, j, p);
    forall m | 0 <= m < |es| && m != i && (InFolder(es[j], from) || m != j)
      ensures !Names(RenameAll(es, from, target)[m], p)
    {
      RenamedNames(es, from, target, m, p);
      if IsFile(es[m]) {
        NobodyElseGoesThere(es, from, target, i, j, m);
      }
    }
    if !InFolder(es[j], from) {
      StayingKeepsPath(es[j], from, target);
    }
  }

  lemma NobodyElseGoesThere(es: seq<string>, from: string, target: string, i: nat, j: nat, m: nat)
    requires DistinctFiles(es) && Collides(es, from, target, i, j)
    requires m < |es| && IsFile(es[m]) && m != i && (InFolder(es[j], from) || m != j)
    ensures NewPathOf(es[m], from, target) != NewPathOf(es[i], from, target)
  {
    hide PathOf, IsFile;
    assert m != j ==> PathOf(es[m]) != PathOf(es[j]);
    if NewPathOf(es[m], from, target) == NewPathOf(es[i], from, target) {
      SameNewPath(es, from, target, i, m);
    }
  }

  lemma StayingKeepsPath(e: string, from: string, target: string)
    requires IsFile(e)
    ensures !InFolder(e, from) ==> NewPathOf(e, from, target) == PathOf(e)
  {
  }

  lemma RenamedLength(es: seq<string>, from: string, target: string)
    ensures |RenameAll(es, from, target)| == |es|
  {
  }

  // A chunk of file i is taken from its new row: by a file that comes later, or by itself.
  lemma LosesAChunk(t: Tablet, user: string, from: string, target: string, es: seq<string>, i: nat, j: nat) returns (k: string)
    requires Movable(es, from, target) && AllFull(t, user, es)
    requires Lossy(es, from, target, i, j) && InFolder(es[j], from)
    ensures k in KeysOf(es[i]) && TakenFrom(user, es, from, i, NewRowOf(user, es[i], from, target), k)
  {
    hide PathOf, KeysOf, IsFile, NewRowOf, RowOfFile, Full;
    CollidingRows(user, es, from, target, i, j);
    if i == j {
      k := KeysOf(es[i])[0];
    } else {
      k :| k in KeysOf(es[i]) && k in KeysOf(es[j]);
    }
  }

  lemma ArrivesOrIsTaken(t: Tablet, user: string, from: string, target: string, es: seq<string>, i: nat, k: string)
    requires Movable(es, from, target) && AllFull(t, user, es) && NoLossBefore(es, from, target, i)
    requires i < |es| && InFolder(es[i], from) && k in KeysOf(es[i])
    ensures AllStored(t, user, es, from)
    ensures var r := NewRowOf(user, es[i], from, target);
            Cell(MoveAll(t, user, from, target, es).0.store, r, k) ==
            if TakenFrom(user, es, from, i, r, k) then None else Cell(t, RowOfFile(user, es[i]), k)
  {
    hide KeysOf, PathOf, NewPathOf, FileRow, TakenFrom, Clear, NoLossBefore, MoveAll;
    assert forall j :: 0 <= j < |es| && InFolder(es[j], from) ==> Full(t, user, es[j]);
    ClearBefore(user, es, from, target, i, k);
    ChunkArrives(t, user, from, target, es, i, k);
  }

  /** The first lossy collision with a file that moves too: the file's download gets shorter. */
  lemma MovingLoses(t: Tablet, user: string, from: string, target: string, es: seq<string>, i: nat, j: nat)
    requires Movable(es, from, target) && AllFull(t, user, es)
    requires Lossy(es, from, target, i, j) && InFolder(es[j], from) && NoLossBefore(es, from, target, i)
    ensures var (m, es') := MoveAll(t, user, from, target, es);
            Gather(m.store, user, RenameAll(es, from, target), NewPathOf(es[i], from, target)).content !=
            Gather(t, user, es, PathOf(es[i])).content
  {
    hide KeysOf, PathOf, NewPathOf, FileRow, TakenFrom, MoveAll, RenameAll, Gather, Names, OnlyNames, Fetch, Harmless, NoLossBefore, Cell;
    var t' := MoveAll(t, user, from, target, es).0.store;
    var keys := KeysOf(es[i]);
    var lost := LosesAChunk(t, user, from, target, es, i, j);
    forall k | k in keys
      ensures Cell(t', NewRowOf(user, es[i], from, target), k) in {None, Cell(t, RowOfFile(user, es[i]), k)}
    {
      ArrivesOrIsTaken(t, user, from, target, es, i, k);
    }
    ArrivesOrIsTaken(t, user, from, target, es, i, lost);
    FullChunks(t, user, es[i]);
    FetchShorter(t', NewRowOf(user, es[i], from, target), t, RowOfFile(user, es[i]), keys, lost);
    NamedBefore(es, i);
    NamedAfter(es, from, target, i, j);
    RenamedLength(es, from, target);
    GatherSingle(t, user, es, PathOf(es[i]), i);
    GatherSingle(t', user, RenameAll(es, from, target), NewPathOf(es[i], from, target), i);
  }

  // A file that stays keeps its chunks, or has them written over by the one file that comes.
  lemma StayingChunk(t: Tablet, user: string, from: string, target: string, es: seq<string>, i: nat, j: nat, k: string)
    requires Movable(es, from, target) && AllFull(t, user, es) && NoLossBefore(es, from, target, i)
    requires Collides(es, from, target, i, j) && !InFolder(es[j], from) && (k in KeysOf(es[i]) || k in KeysOf(es[j]))
    ensures Cell(MoveAll(t, user, from, target, es).0.store, RowOfFile(user, es[j]), k) ==
            if k in KeysOf(es[i]) then Cell(t, RowOfFile(user, es[i]), k) else Cell(t, RowOfFile(user, es[j]), k)
  {
    hide PathOf, KeysOf, IsFile, NewRowOf, RowOfFile, MoveAll, Full, NoLossBefore;
    var r := RowOfFile(user, es[j]);
    CollidingRows(user, es, from, target, i, j);
    forall m | 0 <= m < |es| && InFolder(es[m], from)
      ensures RowOfFile(user, es[m]) != r && (m != i ==> NewRowOf(user, es[m], from, target) != r)
    {
      RowsOfFiles(user, es[m], es[j]);
      CollidingRows(user, es, from, target, m, j);
      if m != i {
        NobodyElseGoesThere(es, from, target, i, j, m);
      }
    }
    AllFullStored(t, user, es, from);
    if k in KeysOf(es[i]) {
      ArrivesOrIsTaken(t, user, from, target, es, i, k);
    } else {
      CellLeft(t, user, from, target, es, r, k);
    }
  }

  lemma AllFullStored(t: Tablet, user: string, es: seq<string>, from: string)
    requires AllFull(t, user, es)
    ensures AllStored(t, user, es, from)
  {
    hide Stored, IsFile;
    assert forall j :: 0 <= j < |es| && InFolder(es[j], from) ==> Full(t, user, es[j]);
  }

  /** The first lossy collision with a file that stays: both are downloaded, one after the other, so one of the two
      downloads is not what it was. */
  lemma StayingLoses(t: Tablet, user: string, from: string, target: string, es: seq<string>, i: nat, j: nat)
    requires Movable(es, from, target) && AllFull(t, user, es)
    requires Lossy(es, from, target, i, j) && !InFolder(es[j], from) && NoLossBefore(es, from, target, i)
    ensures var g := Gather(MoveAll(t, user, from, target, es).0.store, user, RenameAll(es, from, target), PathOf(es[j])).content;
            g != Gather(t, user, es, PathOf(es[i])).content || g != Gather(t, user, es, PathOf(es[j])).content
  {
    hide KeysOf, PathOf, NewPathOf, FileRow, TakenFrom, MoveAll, RenameAll, Gather, Names, OnlyNames, Fetch, NoLossBefore, Cell, Stored;
    var t', es', p := MoveAll(t, user, from, target, es).0.store, RenameAll(es, from, target), PathOf(es[j]);
    var ki, kj, r := KeysOf(es[i]), KeysOf(es[j]), RowOfFile(user, es[j]);
    FullChunks(t, user, es[i]);
    FullChunks(t, user, es[j]);
    forall k | k in ki || k in kj
      ensures Cell(t', r, k) == if k in ki then Cell(t, RowOfFile(user, es[i]), k) else Cell(t, r, k)
    {
      StayingChunk(t, user, from, target, es, i, j, k);
    }
    assert Chunks(t', r, ki) && Chunks(t', r, kj);
    FetchChunks(t', r, ki);
    FetchChunks(t', r, kj);
    FetchChunks(t, r, kj);
    FetchSame(t', r, t, RowOfFile(user, es[i]), ki);
    NamedBefore(es, i);
    NamedBefore(es, j);
    GatherSingle(t, user, es, PathOf(es[i]), i);
    GatherSingle(t, user, es, p, j);
    NamedAfter(es, from, target, i, j);
    RenamedLength(es, from, target);
    if i < j {
      GatherTwo(t', user, es', p, i, j);
    } else {
      OnlyNamesSwap(es', p, i, j);
      GatherTwo(t', user, es', p, j, i);
    }
  }

  lemma OnlyNamesSwap(es: seq<string>, p: string, i: nat, j: nat)
    ensures OnlyNames(es, p, i, j) == OnlyNames(es, p, j, i)
  {
  }

  /** If some collision is lossy, there is a first one. */
  lemma {:induction false} FirstLoss(es: seq<string>, from: string, target: string, i: nat, n: nat) returns (a: nat, b: nat)
    requires NoLossBefore(es, from, target, n) && n <= i && exists j: nat :: Lossy(es, from, target, i, j)
    ensures Lossy(es, from, target, a, b) && NoLossBefore(es, from, target, a)
    decreases i - n
  {
    hide Lossy;
    if j: nat :| Lossy(es, from, target, n, j) {
      a, b := n, j;
    } else {
      assert n < i;
      a, b := FirstLoss(es, from, target, i, n + 1);
    }
  }

  // ---- the theorems ----

  lemma FolderReindexed(t: Tablet, user: string, from: string, target: string)
    requires user != ""
    requires Movable(Listing(t, user), from, target) && AllStored(t, user, Listing(t, user), from)
    ensures var es := Listing(t, user);
            var (m, es') := MoveAll(t, user, from, target, es);
            var t' := Reindex(t, user, m, es');
            && !m.failed && es' == RenameAll(es, from, target)
            && Listing(t', user) == Settle(es')
            && (forall c :: c != INDEX_COL ==> Cell(t', user, c) == Cell(t, user, c))
            && forall r :: r != user ==> SameRow(t', r, m.store, r)
  {
    hide Reindex, AllStored, NewPath, PathOf, MoveAll, Listing, Settle, DistinctFiles;
    var es := Listing(t, user);
    MoveAllCompletes(t, user, from, target, es);
    var (m, es') := MoveAll(t, user, from, target, es);
    forall c ensures Cell(m.store, user, c) == Cell(t, user, c) {
      CellLeft(t, user, from, target, es, user, c);
    }
    Reindexed(t, user, m, es');
  }

  lemma DownloadAfter(t: Tablet, user: string, from: string, target: string, p: string)
    requires user != ""
    requires Movable(Listing(t, user), from, target) && AllStored(t, user, Listing(t, user), from)
    ensures var es := Listing(t, user);
            var (m, es') := MoveAll(t, user, from, target, es);
            Download(Reindex(t, user, m, es'), user, p) == Gather(m.store, user, RenameAll(es, from, target), p).content
  {
    hide Reindex, Gather, Movable, AllStored, MoveAll, Listing, Settle, RenameAll;
    var es := Listing(t, user);
    var (m, es') := MoveAll(t, user, from, target, es);
    FolderReindexed(t, user, from, target);
    var t' := Reindex(t, user, m, es');
    GatherIgnoresIndex(t', m.store, user, es', p);
    GatherSettle(t', user, es', p);
  }

  /** movefolder, for any target: it refuses only when the target is listed; otherwise it completes, the index keeps
      its order, a chunk leaves its old cell unless another is brought there, and no other cell changes. */
  lemma MoveFolderEffect(t: Tablet, user: string, from: string, to: string, r: string, k: string)
    requires user != ""
    requires Movable(Listing(t, user), from, FolderTarget(to)) && AllStored(t, user, Listing(t, user), from)
    ensures var es, target := Listing(t, user), FolderTarget(to);
            var (t', existed) := MoveFolder(t, user, from, to);
            && (existed <==> target in es)
            && (existed ==> t' == t)
            && (!existed ==>
                  && Listing(t', user) == Settle(RenameAll(es, from, target))
                  && (forall c :: c != INDEX_COL ==> Cell(t', user, c) == Cell(t, user, c))
                  && (r != user && !GivenTo(user, es, from, target, r, k) ==>
                        Cell(t', r, k) == if TakenFrom(user, es, from, 0, r, k) then None else Cell(t, r, k)))
  {
    hide Reindex, AllStored, Movable, MoveAll, Listing, Settle, FolderTarget, GivenTo, TakenFrom, RenameAll, Cell;
    var es, target := Listing(t, user), FolderTarget(to);
    if target !in es {
      var (m, es') := MoveAll(t, user, from, target, es);
      FolderReindexed(t, user, from, target);
      if r != user && !GivenTo(user, es, from, target, r, k) {
        CellLeft(t, user, from, target, es, r, k);
        assert SameRow(Reindex(t, user, m, es'), r, m.store, r);
      }
    }
  }

  /** Every listed file downloads the same bytes afterwards, at its new path if it is in the folder. */
  ghost predicate KeepsContent(t: Tablet, user: string, from: string, to: string) {
    var es, target, t' := Listing(t, user), FolderTarget(to), MoveFolder(t, user, from, to).0;
    forall i :: 0 <= i < |es| && IsFile(es[i]) ==>
      Download(t', user, NewPathOf(es[i], from, target)) == Download(t, user, PathOf(es[i]))
  }

  /** A completed move keeps every file's content if every collision is harmless. */
  lemma MoveFolderKeepsContent(t: Tablet, user: string, from: string, to: string)
    requires user != "" && FolderTarget(to) !in Listing(t, user)
    requires Movable(Listing(t, user), from, FolderTarget(to)) && AllStored(t, user, Listing(t, user), from)
    requires NoLoss(Listing(t, user), from, FolderTarget(to))
    ensures KeepsContent(t, user, from, to)
  {
    hide Reindex, AllStored, Movable, NoLoss, NewPath, NewPathOf, PathOf, IsFile, MoveAll, Listing, FolderTarget, RenameAll, Gather;
    var es, target := Listing(t, user), FolderTarget(to);
    var m := MoveAll(t, user, from, target, es).0;
    forall i | 0 <= i < |es| && IsFile(es[i])
      ensures Download(MoveFolder(t, user, from, to).0, user, NewPathOf(es[i], from, target)) == Download(t, user, PathOf(es[i]))
    {
      DownloadAfter(t, user, from, target, NewPathOf(es[i], from, target));
      GatherAfter(t, user, from, target, es, i);
    }
  }

  lemma GatherAfter(t: Tablet, user: string, from: string, target: string, es: seq<string>, i: nat)
    requires Movable(es, from, target) && AllStored(t, user, es, from) && NoLoss(es, from, target)
    requires i < |es| && IsFile(es[i])
    ensures Gather(MoveAll(t, user, from, target, es).0.store, user, RenameAll(es, from, target), NewPathOf(es[i], from, target)) ==
            Gather(t, user, es, PathOf(es[i]))
  {
    hide AllStored, Movable, NoLoss, NewPath, NewPathOf, PathOf, IsFile, MoveAll, Gather;
    var t', p' := MoveAll(t, user, from, target, es).0.store, NewPathOf(es[i], from, target);
    forall j | 0 <= j < |es| ensures SameFile(t', RenameAll(es, from, target)[j], p', t, es[j], PathOf(es[i]), user) {
      FilesFollow(t, user, from, target, es, i, j);
    }
    GatherSame(t', RenameAll(es, from, target), p', t, es, PathOf(es[i]), user);
  }

  /** And exactly then, when no chunk is empty. */
  lemma MoveFolderKeepsContentIff(t: Tablet, user: string, from: string, to: string)
    requires user != "" && FolderTarget(to) !in Listing(t, user)
    requires Movable(Listing(t, user), from, FolderTarget(to)) && AllFull(t, user, Listing(t, user))
    ensures KeepsContent(t, user, from, to) <==> NoLoss(Listing(t, user), from, FolderTarget(to))
  {
    hide Movable, AllFull, Listing, FolderTarget, KeepsContent, Lossy, AllStored;
    var es, target := Listing(t, user), FolderTarget(to);
    AllFullStored(t, user, es, from);
    if NoLoss(es, from, target) {
      MoveFolderKeepsContent(t, user, from, to);
    } else {
      var i: nat, j: nat :| Lossy(es, from, target, i, j);
      var a, b := FirstLoss(es, from, target, i, 0);
      LossyIsLost(t, user, from, to, a, b);
    }
  }

  lemma LossyIsLost(t: Tablet, user: string, from: string, to: string, i: nat, j: nat)
    requires user != "" && FolderTarget(to) !in Listing(t, user)
    requires Movable(Listing(t, user), from, FolderTarget(to)) && AllFull(t, user, Listing(t, user))
    requires Lossy(Listing(t, user), from, FolderTarget(to), i, j) && NoLossBefore(Listing(t, user), from, FolderTarget(to), i)
    ensures !KeepsContent(t, user, from, to)
  {
    hide Reindex, AllFull, Movable, NoLossBefore, Harmless, NewPath, NewPathOf, PathOf, IsFile, MoveAll, Listing, FolderTarget,
      RenameAll, Gather, AllStored;
    var es, target := Listing(t, user), FolderTarget(to);
    AllFullStored(t, user, es, from);
    DownloadAfter(t, user, from, target, NewPathOf(es[i], from, target));
    if InFolder(es[j], from) {
      MovingLoses(t, user, from, target, es, i, j);
    } else {
      StayingLoses(t, user, from, target, es, i, j);
      StayingKeepsPath(es[j], from, target);
    }
  }

  /** movefolder in the words of the request: a file below the folder is found below the target, which gets its slash if
      it has none, with its keys and its bytes; a file outside it stays where it was. */
  lemma MovedFolderIsWhereAsked(t: Tablet, user: string, from: string, to: string, dir: string, i: nat, path: string, keys: string)
    requires (to == dir && dir != "" && dir[|dir| - 1] == '/') || (to + "/" == dir && (to == "" || to[|to| - 1] != '/'))
    requires user != "" && dir !in Listing(t, user)
    requires Movable(Listing(t, user), from, dir) && AllStored(t, user, Listing(t, user), from) && NoLoss(Listing(t, user), from, dir)
    requires ':' !in path && i < |Listing(t, user)| && Listing(t, user)[i] == path + ":" + keys
    ensures var (t', existed) := MoveFolder(t, user, from, to);
            var path' := if from <= path then dir + path[|from|..] else path;
            && !existed
            && i < |Listing(t', user)| && Listing(t', user)[i] == path' + ":" + keys
            && Download(t', user, path') == Download(t, user, path)
  {
    assert ':' !in from && FolderTarget(to) == dir;
    hide Split, MoveFolder, FolderTarget, Download, Listing, AllStored, Movable, NoLoss, RenameAll, Settle, PathOf, IsFile, NewPath,
      GivenTo, TakenFrom;
    var es := Listing(t, user);
    MoveFolderEffect(t, user, from, to, "", "");
    MoveFolderKeepsContent(t, user, from, to);
    FileEntry(path, keys);
    EntryBelow(es, from, dir, i, path, keys);
    assert NewPathOf(es[i], from, dir) == NewPath(path, from, dir);
  }

  lemma EntryBelow(es: seq<string>, from: string, dir: string, i: nat, path: string, keys: string)
    requires i < |es| && es[i] == path + ":" + keys && ':' !in path && ':' !in from
    ensures i < |Settle(RenameAll(es, from, dir))| && Settle(RenameAll(es, from, dir))[i] == NewPath(path, from, dir) + ":" + keys
    ensures NewPath(path, from, dir) == if from <= path then dir + path[|from|..] else path
  {
    hide Split, FindIn;
    PrefixOfPath(path, keys, from);
    if from <= path {
      assert es[i][|from|..] == path[|from|..] + ":" + keys;
      assert dir + (path[|from|..] + ":" + keys) == dir + path[|from|..] + ":" + keys;
    }
  }

  // Moving a key from a row to itself deletes it.
  lemma MoveKeyOntoItself(t: Tablet, row: string, k: string)
    requires Read(t, row, k).Some?
    ensures var m := MoveKeys(t, row, row, [k]); !m.failed && Cell(m.store, row, k) == None
    ensures forall r :: r != row ==> SameRow(MoveKeys(t, row, row, [k]).store, r, t, r)
  {
    assert [k][1..] == [];
  }

  lemma GatherOne(t: Tablet, user: string, e: string, k: string)
    requires IsFile(e) && KeysOf(e) == [k]
    ensures var v := Read(t, FileRow(user, PathOf(e)), k);
            Gather(t, user, [e], PathOf(e)).content == if v.Some? then v.value else ""
  {
    hide FindIn, Split, FileRow, KeysOf, PathOf, Read;
    assert [e][1..] == [] && [k][1..] == [];
    var row := FileRow(user, PathOf(e));
    var v := Read(t, row, k);
    assert Fetch(t, row, [k]) == if v.None? then Fetched("", true) else Before(v.value, Fetch(t, row, []));
    assert Gather(t, user, [], PathOf(e)) == Fetched("", false);
    if v.Some? {
      assert v.value + "" + "" == v.value + "" == v.value;
    }
  }

  lemma MoveAllOntoItself(t: Tablet, user: string, folder: string, e: string)
    requires InFolder(e, folder) && ':' !in folder && ',' !in folder && ',' !in e
    requires !MoveKeys(t, FileRow(user, PathOf(e)), FileRow(user, PathOf(e)), KeysOf(e)).failed
    ensures MoveAll(t, user, folder, folder, [e]) ==
            (MoveKeys(t, FileRow(user, PathOf(e)), FileRow(user, PathOf(e)), KeysOf(e)), [e])
  {
    hide Split, FindIn, MoveKeys, FileRow, KeysOf, PathOf, IsFile;
    Renamed(e, folder, folder);
    assert NewPath(e, folder, folder) == e && NewPath(PathOf(e), folder, folder) == PathOf(e);
    assert [e][1..] == [] && [e] + [] == [e];
    var m := MoveEntry(t, user, folder, folder, e);
    assert m == MoveKeys(t, FileRow(user, PathOf(e)), FileRow(user, PathOf(e)), KeysOf(e));
    assert MoveAll(m.store, user, folder, folder, []) == (Moved(m.store, false), []);
  }

  /** The simplest loss: a folder moved onto itself, unless it has an entry of its own, deletes the chunks it has
      just written. */
  lemma MoveFolderOntoItselfLosesTheFile(t: Tablet, user: string, folder: string, e: string, k: string)
    requires user != "" && EndsWith(folder, '/') && ':' !in folder && ',' !in folder
    requires Listing(t, user) == [e] && InFolder(e, folder) && KeysOf(e) == [k]
    requires Read(t, FileRow(user, PathOf(e)), k).Some? && Read(t, FileRow(user, PathOf(e)), k).value != ""
    ensures var (t', existed) := MoveFolder(t, user, folder, folder);
            !existed && Listing(t', user) == [e] && Download(t', user, PathOf(e)) == "" != Download(t, user, PathOf(e))
  {
    hide Split, FindIn, Reindex, MoveKeys, FileRow, MoveAll, Gather, PathOf, KeysOf, Index;
    var row := FileRow(user, PathOf(e));
    var m := MoveKeys(t, row, row, [k]);
    assert ',' !in e by { assert e in Listing(t, user); }
    MoveKeyOntoItself(t, row, k);
    MoveAllOntoItself(t, user, folder, e);
    RowsDiffer(user, PathOf(e), PathOf(e));
    Reindexed(t, user, m, [e]);
    var t' := Reindex(t, user, m, [e]);
    assert SameRow(t', row, m.store, row);
    GatherOne(t, user, e, k);
    GatherOne(t', user, e, k);
  }
}
