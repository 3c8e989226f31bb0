// The request handler's file actions, statement by statement, against the functions of Storage.
module StorageHandler {
  import opened Tablets
  import opened Decimals
  import opened Format
  import opened Lists
  import opened KvClient
  import opened Storage

  // ---- one round of each loop ----

  // movefile's scan has reached entry i.
  function MoveFirstFrom(t: Tablet, user: string, from: string, target: string, es: seq<string>, i: nat): (Moved, seq<string>)
    requires i <= |es|
  {
    var (m, rest) := MoveFirst(t, user, from, target, es[i..]);
    (m, es[..i] + rest)
  }

  lemma MoveFirstRound(t: Tablet, user: string, from: string, target: string, es: seq<string>, i: nat)
    requires i < |es|
    ensures MoveFirstFrom(t, user, from, target, es, i) ==
            if Names(es[i], from) then
              (MoveKeys(t, FileRow(user, from), FileRow(user, target), KeysOf(es[i])), es[i := NewPath(es[i], from, target)])
            else MoveFirstFrom(t, user, from, target, es, i + 1)
  {
    hide NewPath, KeysOf, FileRow, MoveKeys, Names;
    assert es[i..][0] == es[i] && es[i..][1..] == es[i + 1..];
    if Names(es[i], from) {
      assert es[..i] + ([NewPath(es[i], from, target)] + es[i + 1..]) == es[i := NewPath(es[i], from, target)];
    } else {
      var rest := MoveFirst(t, user, from, target, es[i + 1..]).1;
      assert es[..i] + ([es[i]] + rest) == es[..i + 1] + rest;
    }
  }

  lemma MoveFirstEnds(t: Tablet, user: string, from: string, target: string, es: seq<string>)
    ensures MoveFirstFrom(t, user, from, target, es, 0) == MoveFirst(t, user, from, target, es)
    ensures MoveFirstFrom(t, user, from, target, es, |es|) == (Moved(t, false), es)
  {
    assert es[0..] == es && es[|es|..] == [] && es[..|es|] + [] == es;
    assert es[..0] + MoveFirst(t, user, from, target, es).1 == MoveFirst(t, user, from, target, es).1;
  }

  // movefolder has renamed the entries before i.
  function MoveAllFrom(t: Tablet, user: string, from: string, target: string, es: seq<string>, i: nat): (Moved, seq<string>)
    requires i <= |es|
  {
    var (m, rest) := MoveAll(t, user, from, target, es[i..]);
    (m, es[..i] + rest)
  }

  lemma MoveAllRound(t: Tablet, user: string, from: string, target: string, es: seq<string>, i: nat)
    requires i < |es|
    ensures var m := MoveEntry(t, user, from, target, es[i]);
            if m.failed then MoveAllFrom(t, user, from, target, es, i).0 == m
            else MoveAllFrom(t, user, from, target, es, i) ==
                 MoveAllFrom(m.store, user, from, target, es[i := NewPath(es[i], from, target)], i + 1)
  {
    hide NewPath, MoveEntry;
    var m, es' := MoveEntry(t, user, from, target, es[i]), es[i := NewPath(es[i], from, target)];
    assert es[i..][0] == es[i] && es[i..][1..] == es[i + 1..] == es'[i + 1..];
    if !m.failed {
      var rest := MoveAll(m.store, user, from, target, es[i + 1..]).1;
      assert es[..i] + ([NewPath(es[i], from, target)] + rest) == es'[..i + 1] + rest;
    }
  }

  lemma MoveAllEnds(t: Tablet, user: string, from: string, target: string, es: seq<string>)
    ensures MoveAllFrom(t, user, from, target, es, 0) == MoveAll(t, user, from, target, es)
    ensures MoveAllFrom(t, user, from, target, es, |es|) == (Moved(t, false), es)
  {
    assert es[0..] == es && es[|es|..] == [] && es[..|es|] + [] == es;
    assert es[..0] + MoveAll(t, user, from, target, es).1 == MoveAll(t, user, from, target, es).1;
  }

  /** One user's requests, with the store as this handler's client sees it: nobody else writes meanwhile. */
  class Handler {
    var store: Tablet

    constructor (t: Tablet)
      ensures store == t
    {
      store := t;
    }

    method DownloadFile(user: string, path: string) returns (content: string)
      ensures content == Download(store, user, path)
    {
      hide Split, FindIn, FileRow;
      content := "";
      var files := Split(Index(store, user), ',');
      var i := 0;
      while i < |files|
        invariant 0 <= i <= |files|
        invariant Gather(store, user, files, path) == Before(content, Gather(store, user, files[i..], path))
      {
        assert files[i..][0] == files[i] && files[i..][1..] == files[i + 1..];
        var file := files[i];
        if IsFile(file) && PathOf(file) == path {
          var failed;
          content, failed := ReadChunks(FileRow(user, path), KeysOf(file), content);
          if failed {
            return;
          }
        }
        i := i + 1;
      }
    }

    method ReadChunks(row: string, keys: seq<string>, before: string) returns (content: string, failed: bool)
      ensures Fetched(content, failed) == Before(before, Fetch(store, row, keys))
    {
      content := before;
      var j := 0;
      while j < |keys|
        invariant 0 <= j <= |keys|
        invariant Before(before, Fetch(store, row, keys)) == Before(content, Fetch(store, row, keys[j..]))
      {
        assert keys[j..][0] == keys[j] && keys[j..][1..] == keys[j + 1..];
        var v := Read(store, row, keys[j]);
        if v.None? {
          assert content + "" == content;
          return content, true;
        }
        ghost var more := Fetch(store, row, keys[j + 1..]).content;
        assert content + (v.value + more) == content + v.value + more;
        content := content + v.value;
        j := j + 1;
      }
      assert content + "" == content;
      failed := false;
    }

    method MoveChunks(from: string, to: string, keys: seq<string>) returns (failed: bool)
      modifies this
      ensures Moved(store, failed) == MoveKeys(old(store), from, to, keys)
    {
      var i := 0;
      while i < |keys|
        invariant 0 <= i <= |keys|
        invariant MoveKeys(store, from, to, keys[i..]) == MoveKeys(old(store), from, to, keys)
      {
        assert keys[i..][0] == keys[i] && keys[i..][1..] == keys[i + 1..];
        var v := Read(store, from, keys[i]);
        if v.None? {
          return true;
        }
        store := DoPut(store, to, keys[i], v.value);
        store := DoDelete(store, from, keys[i]);
        i := i + 1;
      }
      failed := false;
    }

    method MoveFileTo(user: string, from: string, to: string) returns (existed: bool)
      requires user != ""
      modifies this
      ensures (store, existed) == MoveFile(old(store), user, from, to)
    {
      hide Split, Join, FindIn, FileRow, MoveKeys, NewPath, KeysOf, ServeCPut, MoveFirst, MoveFirstFrom, PathOf;
      var listed := Index(store, user);
      var target := to;
      if target != "" && target[|target| - 1] == '/' {
        target := target[..|target| - 1];
      }
      var paths := Split(listed, ',');
      var i := 0;
      while i < |paths|
        invariant 0 <= i <= |paths|
        invariant forall j :: 0 <= j < i ==> !(target <= paths[j])
      {
        if target <= paths[i] {
          return true;
        }
        i := i + 1;
      }
      ghost var es := paths;
      MoveFirstEnds(store, user, from, target, es);
      i := 0;
      var failed := false;
      while i < |paths|
        invariant 0 <= i <= |paths| && paths == es && store == old(store) && !failed
        invariant MoveFirstFrom(store, user, from, target, es, i) == MoveFirst(store, user, from, target, es)
      {
        MoveFirstRound(store, user, from, target, es, i);
        if IsFile(paths[i]) && PathOf(paths[i]) == from {
          failed := MoveChunks(FileRow(user, from), FileRow(user, target), KeysOf(paths[i]));
          paths := paths[i := NewPath(paths[i], from, target)];
          break;
        }
        i := i + 1;
      }
      assert (Moved(store, failed), paths) == MoveFirst(old(store), user, from, target, es);
      if !failed {
        store := ServeCPut(store, user, INDEX_COL, listed, Join(paths, ',')).0;
      }
      existed := false;
    }

    method MoveFolderTo(user: string, from: string, to: string) returns (existed: bool)
      requires user != ""
      modifies this
      ensures (store, existed) == MoveFolder(old(store), user, from, to)
    {
      hide Split, Join, FindIn, FileRow, MoveKeys, KeysOf, ServeCPut, MoveAll, MoveAllFrom, PathOf;
      var listed := Index(store, user);
      var target := to;
      if target == "" || target[|target| - 1] != '/' {
        target := target + "/";
      }
      var paths := Split(listed, ',');
      if target in paths {
        return true;
      }
      ghost var es := paths;
      MoveAllEnds(store, user, from, target, es);
      var i := 0;
      while i < |paths|
        invariant 0 <= i <= |paths|
        invariant MoveAllFrom(store, user, from, target, paths, i) == MoveAll(old(store), user, from, target, es)
      {
        MoveAllRound(store, user, from, target, paths, i);
        if from <= paths[i] {
          if IsFile(paths[i]) {
            var path := PathOf(paths[i]);
            if |from| > |path| {
              return false;
            }
            var failed := MoveChunks(FileRow(user, path), FileRow(user, NewPath(path, from, target)), KeysOf(paths[i]));
            if failed {
              return false;
            }
          }
          paths := paths[i := target + paths[i][|from|..]];
        } else {
          assert paths[i := paths[i]] == paths;
        }
        i := i + 1;
      }
      MoveAllEnds(store, user, from, target, paths);
      store := ServeCPut(store, user, INDEX_COL, listed, Join(paths, ',')).0;
      existed := false;
    }
  }
}
