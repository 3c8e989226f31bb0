// Upload cuts the body into chunks; download joins them again.
module StorageUpload {
  import opened Tablets
  import opened Decimals
  import opened Format
  import opened Lists
  import opened KvClient
  import opened Storage
  import opened StorageMoves

  datatype Chunk = Chunk(key: string, data: string)

  /** The test that says another chunk follows, as it is meant; as written, where it multiplies an offset that is
      already in bytes; and as written on a machine whose 32-bit integers wrap around. */
  datatype Test = Meant | Written | Wrapping

  function Wrap32(n: int): (r: int)
    ensures -0x8000_0000 <= r < 0x8000_0000
  {
    var m := n % 0x1_0000_0000;
    if m < 0x8000_0000 then m else m - 0x1_0000_0000
  }

  predicate MoreFollow(i: nat, size: nat, test: Test) {
    match test
    case Meant => i + CHUNK < size
    case Written => i * CHUNK + CHUNK < size
    case Wrapping => Wrap32(Wrap32(i * CHUNK) + CHUNK) < size
  }

  /** substr: at most n characters from i on. */
  function Substr(s: string, i: nat, n: nat): (r: string)
    requires i <= |s|
    ensures |r| == if i + n <= |s| then n else |s| - i
  {
    if i + n <= |s| then s[i..i + n] else s[i..]
  }

  function ChunkAt(body: string, i: nat, test: Test): Chunk
    requires i < |body|
  {
    Chunk("k" + Decimal(i), if MoreFollow(i, |body|, test) then Substr(body, i, CHUNK) else body[i..])
  }

  function ChunksFrom(body: string, i: nat, test: Test): seq<Chunk>
    decreases |body| - i
  {
    if i >= |body| then [] else [ChunkAt(body, i, test)] + ChunksFrom(body, i + CHUNK, test)
  }

  function StoreChunks(t: Tablet, row: string, cs: seq<Chunk>): Tablet
    decreases |cs|
  {
    if cs == [] then t else StoreChunks(DoPut(t, row, cs[0].key, cs[0].data), row, cs[1..])
  }

  // Every key with a plus sign after it.
  function PlusKeys(cs: seq<Chunk>): string {
    if cs == [] then "" else cs[0].key + "+" + PlusKeys(cs[1..])
  }

  function NewEntry(cs: seq<Chunk>): string {
    DropBack(UPLOAD_NAME + ":" + PlusKeys(cs), '+')
  }

  function Extended(listed: string, e: string): string {
    if listed == "" then e else listed + "," + e
  }

  /** The new store, and whether the file was reported as existing. */
  function Upload(t: Tablet, user: string, body: string, test: Test): (Tablet, bool) {
    var listed := Index(t, user);
    if UPLOAD_NAME in Split(listed, ',') then (t, true)
    else
      var cs := ChunksFrom(body, 0, test);
      var stored := StoreChunks(t, FileRow(user, UPLOAD_NAME), cs);
      (ServeCPut(stored, user, INDEX_COL, listed, Extended(listed, NewEntry(cs))).0, false)
  }

  // One round of the loop stores a chunk and appends its key.
  lemma UploadRound(t: Tablet, row: string, body: string, i: nat, test: Test, name: string)
    requires i < |body|
    ensures var c := ChunkAt(body, i, test);
            var rest := ChunksFrom(body, i + CHUNK, test);
            && StoreChunks(t, row, ChunksFrom(body, i, test)) == StoreChunks(DoPut(t, row, c.key, c.data), row, rest)
            && name + PlusKeys(ChunksFrom(body, i, test)) == name + c.key + "+" + PlusKeys(rest)
  {
    hide ChunkAt, DoPut;
    var c := ChunkAt(body, i, test);
    var rest := ChunksFrom(body, i + CHUNK, test);
    assert ([c] + rest)[1..] == rest;
    assert name + (c.key + "+" + PlusKeys(rest)) == name + c.key + "+" + PlusKeys(rest);
  }

  /** The upload loop. */
  method UploadFile(t: Tablet, user: string, body: string, test: Test) returns (t': Tablet, existed: bool)
    requires user != ""
    ensures (t', existed) == Upload(t, user, body, test)
  {
    hide ServeCPut, Decimal, Split, FileRow, Substr, DoPut, MoreFollow, Index, StoreChunks, PlusKeys;
    var listed := Index(t, user);
    var name := UPLOAD_NAME + ":";
    t' := t;
    existed := UPLOAD_NAME in Split(listed, ',');
    if !existed {
      ghost var cs := ChunksFrom(body, 0, test);
      var row := FileRow(user, UPLOAD_NAME);
      var i := 0;
      while i < |body|
        invariant i >= 0
        invariant StoreChunks(t', row, ChunksFrom(body, i, test)) == StoreChunks(t, row, cs)
        invariant name + PlusKeys(ChunksFrom(body, i, test)) == UPLOAD_NAME + ":" + PlusKeys(cs)
        invariant name != ""
      {
        UploadRound(t', row, body, i, test, name);
        var key := "k" + Decimal(i);
        name := name + key + "+";
        if MoreFollow(i, |body|, test) {
          t' := DoPut(t', row, key, Substr(body, i, CHUNK));
        } else {
          t' := DoPut(t', row, key, body[i..]);
        }
        i := i + CHUNK;
      }
      NoChunksLeft(t', row, name, body, i, test);
      if name[|name| - 1] == '+' {
        name := name[..|name| - 1];
      }
      t' := ServeCPut(t', user, INDEX_COL, listed, Extended(listed, name)).0;
    }
  }

  lemma NoChunksLeft(t: Tablet, row: string, name: string, body: string, i: nat, test: Test)
    requires i >= |body|
    ensures StoreChunks(t, row, ChunksFrom(body, i, test)) == t
    ensures name + PlusKeys(ChunksFrom(body, i, test)) == name
  {
    assert name + "" == name;
  }

  // ---- the chunks ----

  function Keys(cs: seq<Chunk>): (ks: seq<string>)
    ensures |ks| == |cs|
    ensures forall i :: 0 <= i < |cs| ==> ks[i] == cs[i].key
  {
    if cs == [] then [] else [cs[0].key] + Keys(cs[1..])
  }

  function Bytes(cs: seq<Chunk>): string {
    if cs == [] then "" else cs[0].data + Bytes(cs[1..])
  }

  predicate CleanKey(k: string) {
    '+' !in k && ',' !in k && k != ""
  }

  lemma KeyInjective(i: nat, j: nat)
    requires "k" + Decimal(i) == "k" + Decimal(j)
    ensures i == j
  {
    assert ("k" + Decimal(i))[1..] == Decimal(i) && ("k" + Decimal(j))[1..] == Decimal(j);
    DecimalInjective(i, j);
  }

  lemma KeyIsClean(i: nat)
    ensures CleanKey("k" + Decimal(i))
  {
    forall c | c in Decimal(i) ensures IsDigit(c) {
    }
  }

  lemma KeysCons(c: Chunk, cs: seq<Chunk>)
    ensures Keys([c] + cs) == [c.key] + Keys(cs)
  {
    assert ([c] + cs)[1..] == cs;
  }

  // The chunks from i on have the keys of the offsets from i on.
  lemma {:induction false} ChunkKeys(body: string, i: nat, test: Test, j: nat)
    ensures forall k :: k in Keys(ChunksFrom(body, i, test)) ==> CleanKey(k)
    ensures j < i ==> "k" + Decimal(j) !in Keys(ChunksFrom(body, i, test))
    decreases |body| - i
  {
    hide Decimal, ChunkAt, Keys, CleanKey;
    if i < |body| {
      var c, rest := ChunkAt(body, i, test), ChunksFrom(body, i + CHUNK, test);
      ChunkKeys(body, i + CHUNK, test, j);
      KeysCons(c, rest);
      ChunkKey(body, i, test, j);
    } else {
      NoKeys();
    }
  }

  lemma ChunkKey(body: string, i: nat, test: Test, j: nat)
    requires i < |body|
    ensures var key := ChunkAt(body, i, test).key; CleanKey(key) && (j < i ==> key != "k" + Decimal(j))
  {
    hide Decimal, Substr, MoreFollow, CleanKey;
    KeyIsClean(i);
    if "k" + Decimal(j) == "k" + Decimal(i) {
      KeyInjective(j, i);
    }
  }

  lemma NoKeys()
    ensures Keys([]) == []
  {
  }

  lemma {:induction false} ChunkKeysDistinct(body: string, i: nat, test: Test)
    ensures Distinct(Keys(ChunksFrom(body, i, test)))
    decreases |body| - i
  {
    hide Decimal, Substr, MoreFollow, Keys;
    if i < |body| {
      var c, rest := ChunkAt(body, i, test), ChunksFrom(body, i + CHUNK, test);
      ChunkKeysDistinct(body, i + CHUNK, test);
      ChunkKeys(body, i + CHUNK, test, i);
      KeysCons(c, rest);
      assert ([c.key] + Keys(rest))[1..] == Keys(rest);
    } else {
      NoKeys();
    }
  }

  /** The test says so at every chunk from i on that is not the last. */
  predicate Notices(size: nat, i: nat, test: Test)
    decreases size - i
  {
    i + CHUNK >= size || (MoreFollow(i, size, test) && Notices(size, i + CHUNK, test))
  }

  lemma DataAt(body: string, i: nat, test: Test)
    requires i < |body|
    ensures ChunkAt(body, i, test).data ==
            if i + CHUNK < |body| && MoreFollow(i, |body|, test) then body[i..i + CHUNK] else body[i..]
  {
    hide Decimal, MoreFollow;
    if i + CHUNK == |body| {
      assert body[i..i + CHUNK] == body[i..];
    }
  }

  // A chunk that runs to the end of the body although it is not the last makes the whole too long.
  lemma {:induction false} ChunkBytes(body: string, i: nat, test: Test)
    requires i < |body|
    ensures var bytes := Bytes(ChunksFrom(body, i, test));
            if Notices(|body|, i, test) then bytes == body[i..] else |bytes| > |body| - i
    decreases |body| - i
  {
    hide ChunkAt, MoreFollow;
    var c, rest := ChunkAt(body, i, test), ChunksFrom(body, i + CHUNK, test);
    DataAt(body, i, test);
    assert ([c] + rest)[1..] == rest && Bytes([c] + rest) == c.data + Bytes(rest);
    if i + CHUNK >= |body| {
      assert c.data + "" == c.data;
    } else {
      ChunkBytes(body, i + CHUNK, test);
      assert body[i..] == body[i..i + CHUNK] + body[i + CHUNK..];
    }
  }

  /** Whatever the test: the chunks joined are the body exactly when the test notices every chunk that follows. */
  lemma BytesIff(body: string, test: Test)
    ensures var bytes := Bytes(ChunksFrom(body, 0, test));
            |bytes| >= |body| && (bytes == body <==> Notices(|body|, 0, test))
  {
    if body != "" {
      ChunkBytes(body, 0, test);
      assert body[0..] == body;
    }
  }

  lemma {:induction false} MeantNotices(size: nat, i: nat)
    ensures Notices(size, i, Meant)
    decreases size - i
  {
    if i + CHUNK >= size {
    } else {
      MeantNotices(size, i + CHUNK);
    }
  }

  /** As written over mathematical integers it notices every chunk exactly of a body of at most two. */
  lemma WrittenNotices(size: nat)
    ensures Notices(size, 0, Written) <==> size <= 2 * CHUNK
  {
    if 2 * CHUNK < size {
      LastIsNotNoticed(size, CHUNK);
    }
  }

  // After the first chunk, the one before the last is never noticed.
  lemma {:induction false} LastIsNotNoticed(size: nat, i: nat)
    requires CHUNK <= i && i + CHUNK < size
    ensures !Notices(size, i, Written)
    decreases size - i
  {
    assert i * CHUNK == i * 2_000_000;
    if i + 2 * CHUNK >= size {
    } else {
      LastIsNotNoticed(size, i + CHUNK);
    }
  }

  /** Where integers wrap around the answer is the same for every body below 1.38 GB. */
  lemma WrappingNotices(size: nat)
    requires size <= 1_387_447_424
    ensures Notices(size, 0, Wrapping) <==> size <= 2 * CHUNK
  {
    assert Wrap32(Wrap32(0 * CHUNK) + CHUNK) == CHUNK;
    assert Wrap32(Wrap32(CHUNK * CHUNK) + CHUNK) == 1_387_447_424;
  }

  // ---- what the store holds afterwards ----

  lemma {:induction false} StoreChunksCells(t: Tablet, row: string, cs: seq<Chunk>)
    requires Distinct(Keys(cs)) && forall k :: k in Keys(cs) ==> CleanKey(k)
    ensures Fetch(StoreChunks(t, row, cs), row, Keys(cs)) == Fetched(Bytes(cs), false)
    ensures forall r :: r != row ==> SameRow(StoreChunks(t, row, cs), r, t, r)
    ensures forall k :: k !in Keys(cs) ==> Cell(StoreChunks(t, row, cs), row, k) == Cell(t, row, k)
    decreases |cs|
  {
    if cs == [] {
    } else {
      var c, rest := cs[0], cs[1..];
      KeysCons(c, rest);
      assert cs == [c] + rest && Keys(cs)[1..] == Keys(rest) && CleanKey(c.key);
      var t1 := DoPut(t, row, c.key, c.data);
      forall r, k ensures Cell(t1, r, k) == if r == row && k == c.key then Some(c.data) else Cell(t, r, k) {
        ApplyCell(t, Put(row, c.key, c.data), r, k);
      }
      hide Keys, CleanKey, DoPut, Cell;
      StoreChunksCells(t1, row, rest);
      var t' := StoreChunks(t, row, cs);
      assert Read(t', row, c.key) == Some(c.data);
      forall r | r != row ensures SameRow(t', r, t, r) {
        assert SameRow(t', r, t1, r);
      }
    }
  }

  lemma {:induction false} PlusKeysJoin(cs: seq<Chunk>)
    requires cs != []
    ensures PlusKeys(cs) == Join(Keys(cs), '+') + "+"
  {
    if |cs| > 1 {
      PlusKeysJoin(cs[1..]);
      assert Keys(cs)[1..] == Keys(cs[1..]);
      var key, rest := cs[0].key, Join(Keys(cs[1..]), '+');
      assert Join(Keys(cs), '+') == key + ['+'] + rest;
      assert key + "+" + (rest + "+") == key + ['+'] + rest + "+";
    } else {
      assert PlusKeys(cs[1..]) == "" && Keys(cs) == [cs[0].key];
    }
  }

  lemma {:induction false} JoinFree(xs: seq<string>, c: char)
    requires Free(xs, c) && c != '+'
    ensures c !in Join(xs, '+')
  {
    if |xs| > 1 {
      assert forall x :: x in xs[1..] ==> x in xs;
      JoinFree(xs[1..], c);
    }
  }

  // The entry lists the keys, and reads back as them.
  lemma NewEntryLists(body: string, test: Test)
    ensures var cs := ChunksFrom(body, 0, test);
            var e := NewEntry(cs);
            Names(e, UPLOAD_NAME) && KeysOf(e) == Keys(cs) && ',' !in e && e != ""
  {
    hide Decimal, Split, Join, ChunksFrom, Colon, FindIn, NewEntry, Keys;
    var ks := Keys(ChunksFrom(body, 0, test));
    ChunkKeys(body, 0, test, 0);
    assert ks != [] ==> ks[|ks| - 1] in ks;
    SplitJoin(ks, '+');
    JoinFree(ks, ',');
    EntryText(ChunksFrom(body, 0, test));
    FileEntry(UPLOAD_NAME, Join(ks, '+'));
  }

  lemma EntryText(cs: seq<Chunk>)
    ensures NewEntry(cs) == UPLOAD_NAME + ":" + Join(Keys(cs), '+')
  {
    if cs == [] {
      assert UPLOAD_NAME + ":" + "" == UPLOAD_NAME + ":";
    } else {
      PlusKeysJoin(cs);
      var name := UPLOAD_NAME + ":" + PlusKeys(cs);
      assert name == UPLOAD_NAME + ":" + Join(Keys(cs), '+') + "+";
      assert name[..|name| - 1] == UPLOAD_NAME + ":" + Join(Keys(cs), '+');
    }
  }

  // ---- the index with one more entry ----

  // An index that ends in a comma gains an empty entry too.
  lemma {:induction false} SplitSnoc(s: string, e: string)
    requires ',' !in e && e != ""
    ensures Split(s + "," + e, ',') == Split(s, ',') + (if s == "" || EndsWith(s, ',') then ["", e] else [e])
    decreases |s|
  {
    hide Split, FindIn;
    var i := FindIn(s, 0, {','});
    SplitOne(e, ',');
    if i < 0 {
      SplitFirst(s, e, ',');
      SplitEmpty(s, ',');
      if s != "" {
        SplitOne(s, ',');
      }
      assert [] + ["", e] == [""] + [e];
    } else {
      var x, rest := s[..i], s[i + 1..];
      CutAt(s, i);
      SplitFirst(x, rest, ',');
      SplitFirst(x, rest + "," + e, ',');
      assert s + "," + e == x + [','] + (rest + "," + e);
      SplitSnoc(rest, e);
    }
  }

  lemma {:induction false} GatherSnoc(t: Tablet, user: string, es: seq<string>, e: string, path: string)
    requires !Gather(t, user, es, path).failed && Names(e, path)
    ensures Gather(t, user, es + [e], path).content ==
            Gather(t, user, es, path).content + Fetch(t, FileRow(user, path), KeysOf(e)).content
  {
    hide Fetch, KeysOf, FileRow, Names;
    var f := Fetch(t, FileRow(user, path), KeysOf(e));
    if es == [] {
      assert es + [e] == [e] && [e][1..] == [];
      assert f.content + "" == f.content == "" + f.content;
    } else {
      assert (es + [e])[1..] == es[1..] + [e] && (es + [e])[0] == es[0];
      GatherSnoc(t, user, es[1..], e, path);
      if Names(es[0], path) {
        var g, more := Fetch(t, FileRow(user, path), KeysOf(es[0])).content, Gather(t, user, es[1..], path).content;
        assert g + (more + f.content) == g + more + f.content;
      }
    }
  }

  // ---- the theorem ----

  lemma UploadedStore(t: Tablet, user: string, body: string, test: Test)
    requires user != "" && UPLOAD_NAME !in Listing(t, user)
    ensures var cs := ChunksFrom(body, 0, test);
            var t' := Upload(t, user, body, test).0;
            && Index(t', user) == Extended(Index(t, user), NewEntry(cs))
            && Fetch(t', FileRow(user, UPLOAD_NAME), Keys(cs)) == Fetched(Bytes(cs), false)
            && (forall r :: r != user && r != FileRow(user, UPLOAD_NAME) ==> SameRow(t', r, t, r))
            && (forall c :: c != INDEX_COL ==> Cell(t', user, c) == Cell(t, user, c))
  {
    hide Split, FindIn, FileRow, ChunksFrom, StoreChunks, Keys, Bytes, NewEntry, Extended, Fetch, Distinct, CleanKey;
    var cs, row := ChunksFrom(body, 0, test), FileRow(user, UPLOAD_NAME);
    ChunkKeysDistinct(body, 0, test);
    ChunkKeys(body, 0, test, 0);
    StoreChunksCells(t, row, cs);
    RowsDiffer(user, UPLOAD_NAME, UPLOAD_NAME);
    var stored := StoreChunks(t, row, cs);
    assert SameRow(stored, user, t, user);
    IndexWritten(t, stored, user, Extended(Index(t, user), NewEntry(cs)));
    var t' := Upload(t, user, body, test).0;
    assert SameRow(t', row, stored, row);
    FetchSame(t', row, stored, row, Keys(cs));
    forall r | r != user && r != row ensures SameRow(t', r, t, r) {
      assert SameRow(t', r, stored, r) && SameRow(stored, r, t, r);
      assert forall c :: Cell(t', r, c) == Cell(stored, r, c) == Cell(t, r, c);
    }
  }

  // An extended index holds the same files and the new one.
  lemma ExtendedGathers(t: Tablet, user: string, listed: string, e: string, path: string)
    requires ',' !in e && e != ""
    ensures !Names(e, path) ==>
            Gather(t, user, Split(Extended(listed, e), ','), path) == Gather(t, user, Split(listed, ','), path)
    ensures Names(e, path) && !Gather(t, user, Split(listed, ','), path).failed ==>
            Gather(t, user, Split(Extended(listed, e), ','), path).content ==
            Gather(t, user, Split(listed, ','), path).content + Fetch(t, FileRow(user, path), KeysOf(e)).content
  {
    hide Split, Gather, FindIn, Fetch, KeysOf, FileRow;
    var es := Split(listed, ',');
    var padded := if listed != "" && EndsWith(listed, ',') then es + [""] else es;
    if listed == "" {
      SplitEmpty(listed, ',');
      SplitOne(e, ',');
      assert Split(Extended(listed, e), ',') == padded + [e];
    } else {
      SplitSnoc(listed, e);
      assert es + ["", e] == es + [""] + [e];
    }
    GatherSnocFolder(t, user, es, "", path);
    if !Names(e, path) {
      GatherSnocFolder(t, user, padded, e, path);
    } else if !Gather(t, user, es, path).failed {
      GatherSnoc(t, user, padded, e, path);
    }
  }

  // ---- what was listed at the path before ----

  /** The files listed at the path can be read, and none of their chunks is empty. */
  predicate Readable(t: Tablet, user: string, es: seq<string>, path: string) {
    forall i :: 0 <= i < |es| && Names(es[i], path) ==> Chunks(t, FileRow(user, path), KeysOf(es[i]))
  }

  predicate NoChunks(es: seq<string>, path: string) {
    forall i :: 0 <= i < |es| && Names(es[i], path) ==> KeysOf(es[i]) == []
  }

  lemma {:induction false} GatherReadable(t: Tablet, user: string, es: seq<string>, path: string)
    requires Readable(t, user, es, path)
    ensures var g := Gather(t, user, es, path); !g.failed && (g.content == "" <==> NoChunks(es, path))
  {
    hide Names, KeysOf, FileRow, Fetch, Chunks;
    if es == [] {
    } else {
      assert forall i :: 0 <= i < |es[1..]| ==> es[1..][i] == es[i + 1];
      GatherReadable(t, user, es[1..], path);
      assert NoChunks(es, path) <==> (Names(es[0], path) ==> KeysOf(es[0]) == []) && NoChunks(es[1..], path);
      if Names(es[0], path) {
        FetchChunks(t, FileRow(user, path), KeysOf(es[0]));
      }
    }
  }

  predicate NoneEmpty(cs: seq<Chunk>) {
    cs == [] || (cs[0].data != "" && NoneEmpty(cs[1..]))
  }

  lemma {:induction false} StoreChunksKeepsChunks(t: Tablet, row: string, cs: seq<Chunk>, keys: seq<string>)
    requires Chunks(t, row, keys) && NoneEmpty(cs)
    ensures Chunks(StoreChunks(t, row, cs), row, keys)
    decreases |cs|
  {
    if cs == [] {
    } else {
      var t1 := DoPut(t, row, cs[0].key, cs[0].data);
      forall k ensures Cell(t1, row, k) == if k == cs[0].key then Some(cs[0].data) else Cell(t, row, k) {
        ApplyCell(t, Put(row, cs[0].key, cs[0].data), row, k);
      }
      hide DoPut, Cell;
      StoreChunksKeepsChunks(t1, row, cs[1..], keys);
    }
  }

  lemma {:induction false} ChunkData(body: string, i: nat, test: Test)
    ensures NoneEmpty(ChunksFrom(body, i, test))
    decreases |body| - i
  {
    hide Decimal;
    if i >= |body| {
    } else {
      ChunkData(body, i + CHUNK, test);
      var c, rest := ChunkAt(body, i, test), ChunksFrom(body, i + CHUNK, test);
      assert |c.data| > 0 && ([c] + rest)[1..] == rest;
    }
  }

  lemma OldFilesReadable(t: Tablet, user: string, body: string, test: Test)
    requires user != "" && UPLOAD_NAME !in Listing(t, user) && Readable(t, user, Listing(t, user), UPLOAD_NAME)
    ensures Readable(Upload(t, user, body, test).0, user, Listing(t, user), UPLOAD_NAME)
  {
    hide Names, KeysOf, FileRow, StoreChunks, Split, ServeCPut, ChunksFrom, NewEntry, Extended, Cell, Index, Upload;
    var es, t' := Listing(t, user), Upload(t, user, body, test).0;
    var row, cs := FileRow(user, UPLOAD_NAME), ChunksFrom(body, 0, test);
    ChunkData(body, 0, test);
    UploadedRow(t, user, body, test);
    forall i | 0 <= i < |es| && Names(es[i], UPLOAD_NAME) ensures Chunks(t', row, KeysOf(es[i])) {
      StoreChunksKeepsChunks(t, row, cs, KeysOf(es[i]));
    }
  }

  lemma UploadedRow(t: Tablet, user: string, body: string, test: Test)
    requires user != "" && UPLOAD_NAME !in Listing(t, user)
    ensures var row := FileRow(user, UPLOAD_NAME);
            SameRow(Upload(t, user, body, test).0, row, StoreChunks(t, row, ChunksFrom(body, 0, test)), row)
  {
    hide Split, FindIn, FileRow, ChunksFrom, StoreChunks, Keys, Bytes, NewEntry, Extended, Distinct, CleanKey;
    var cs, row := ChunksFrom(body, 0, test), FileRow(user, UPLOAD_NAME);
    ChunkKeysDistinct(body, 0, test);
    ChunkKeys(body, 0, test, 0);
    StoreChunksCells(t, row, cs);
    RowsDiffer(user, UPLOAD_NAME, UPLOAD_NAME);
    assert SameRow(StoreChunks(t, row, cs), user, t, user);
    IndexWritten(t, StoreChunks(t, row, cs), user, Extended(Index(t, user), NewEntry(cs)));
  }

  /** Upload, then download: the body comes back exactly when nothing with a chunk was listed at the path before
      and the test notices every chunk: always, as it is meant; as written, of a body of at most two chunks. An earlier
      upload is not noticed, because the check compares whole entries: the download is then both, one after the
      other. No other file changes. */
  lemma UploadThenDownload(t: Tablet, user: string, body: string, test: Test)
    requires user != "" && "untitled" !in Listing(t, user) && Readable(t, user, Listing(t, user), "untitled")
    ensures Notices(|body|, 0, Meant) && (Notices(|body|, 0, Written) <==> |body| <= 4_000_000)
    ensures var (t', existed) := Upload(t, user, body, test);
            && !existed
            && (Download(t', user, "untitled") == body <==>
                NoChunks(Listing(t, user), "untitled") && Notices(|body|, 0, test))
            && (forall path :: path != "untitled" ==> Download(t', user, path) == Download(t, user, path))
            && (forall r :: r != user && r != user + ":untitled" ==> SameRow(t', r, t, r))
            && (forall c :: c != "storage" ==> Cell(t', user, c) == Cell(t, user, c))
  {
    assert FileRow(user, UPLOAD_NAME) == user + ":untitled";
    hide Split, Gather, FindIn, Fetch, KeysOf, FileRow, Upload, ChunksFrom, NewEntry, Extended, Index, Keys, Bytes, Readable, NoChunks, Notices;
    var cs := ChunksFrom(body, 0, test);
    var e := NewEntry(cs);
    var t' := Upload(t, user, body, test).0;
    UploadedStore(t, user, body, test);
    NewEntryLists(body, test);
    OldFilesReadable(t, user, body, test);
    GatherReadable(t', user, Listing(t, user), UPLOAD_NAME);
    ExtendedGathers(t', user, Index(t, user), e, UPLOAD_NAME);
    var before := Gather(t', user, Listing(t, user), UPLOAD_NAME).content;
    assert Download(t', user, UPLOAD_NAME) == before + Bytes(cs);
    BytesIff(body, test);
    MeantNotices(|body|, 0);
    WrittenNotices(|body|);
    assert before == "" ==> before + Bytes(cs) == Bytes(cs);
    forall path | path != UPLOAD_NAME ensures Download(t', user, path) == Download(t, user, path) {
      ExtendedGathers(t', user, Index(t, user), e, path);
      RowsDiffer(user, path, UPLOAD_NAME);
      assert SameRow(t', FileRow(user, path), t, FileRow(user, path));
      OtherFileSame(t', t, user, Split(Index(t, user), ','), path);
    }
    UploadReports(t, user, body, test);
  }

  lemma UploadReports(t: Tablet, user: string, body: string, test: Test)
    ensures Upload(t, user, body, test).1 <==> UPLOAD_NAME in Listing(t, user)
    ensures UPLOAD_NAME in Listing(t, user) ==> Upload(t, user, body, test).0 == t
  {
  }

  // ---- under which names ----

  lemma {:induction false} ChunkIs(body: string, i: nat, test: Test, n: nat)
    requires i + n * CHUNK < |body|
    ensures n < |ChunksFrom(body, i, test)| && ChunksFrom(body, i, test)[n] == ChunkAt(body, i + n * CHUNK, test)
    decreases n
  {
    hide ChunkAt;
    if n == 0 {
    } else {
      ChunkIs(body, i + CHUNK, test, n - 1);
    }
  }

  lemma {:induction false} ChunkCount(body: string, i: nat, test: Test, n: nat)
    requires if n == 0 then i >= |body| else i + (n - 1) * CHUNK < |body| <= i + n * CHUNK
    ensures |ChunksFrom(body, i, test)| == n
    decreases n
  {
    hide ChunkAt;
    if n == 0 {
    } else {
      ChunkCount(body, i + CHUNK, test, n - 1);
    }
  }

  lemma {:induction false} StoredChunk(t: Tablet, row: string, cs: seq<Chunk>, n: nat)
    requires n < |cs| && Distinct(Keys(cs)) && forall k :: k in Keys(cs) ==> CleanKey(k)
    ensures Cell(StoreChunks(t, row, cs), row, cs[n].key) == Some(cs[n].data)
    decreases |cs|
  {
    var c, rest := cs[0], cs[1..];
    assert cs == [c] + rest;
    KeysCons(c, rest);
    assert Keys(cs)[1..] == Keys(rest);
    var t1 := DoPut(t, row, c.key, c.data);
    ApplyCell(t, Put(row, c.key, c.data), row, c.key);
    hide Keys, CleanKey, DoPut;
    if n == 0 {
      StoreChunksCells(t1, row, rest);
    } else {
      StoredChunk(t1, row, rest, n - 1);
    }
  }

  lemma KeyNames(body: string, test: Test, n: nat)
    requires if n == 0 then body == "" else (n - 1) * CHUNK < |body| <= n * CHUNK
    ensures Keys(ChunksFrom(body, 0, test)) == seq(n, m requires 0 <= m < n => "k" + Decimal(m * 2_000_000))
  {
    hide Decimal, ChunksFrom, Substr, MoreFollow;
    var cs := ChunksFrom(body, 0, test);
    ChunkCount(body, 0, test, n);
    forall m | 0 <= m < n ensures Keys(cs)[m] == "k" + Decimal(m * 2_000_000) {
      ChunkIs(body, 0, test, m);
    }
  }

  /** An upload by name: n chunks are stored at untitled under the keys k0, k2000000 and so on, each with its part of the
      body, and the index goes on with one entry that lists them. */
  lemma UploadedAs(t: Tablet, user: string, body: string, test: Test, n: nat, m: nat)
    requires user != "" && "untitled" !in Listing(t, user)
    requires if n == 0 then body == "" else (n - 1) * 2_000_000 < |body| <= n * 2_000_000
    ensures var t' := Upload(t, user, body, test).0;
            var e := "untitled" + ":" + Join(seq(n, m requires 0 <= m < n => "k" + Decimal(m * 2_000_000)), '+');
            && Index(t', user) == (if Index(t, user) == "" then e else Index(t, user) + "," + e)
            && Listing(t, user) <= Listing(t', user) && Listing(t', user) != [] && Listing(t', user)[|Listing(t', user)| - 1] == e
            && (m < n ==> var i := m * 2_000_000;
                  Cell(t', user + ":" + "untitled", "k" + Decimal(i)) ==
                  Some(if i + 2_000_000 < |body| && MoreFollow(i, |body|, test) then body[i..i + 2_000_000] else body[i..]))
  {
    hide Decimal, Split, FindIn, ChunksFrom, Join, Keys, Index, MoreFollow, StoreChunks, Distinct, CleanKey, NewEntry, Cell;
    var cs := ChunksFrom(body, 0, test);
    KeyNames(body, test, n);
    EntryText(cs);
    NewEntryLists(body, test);
    UploadedStore(t, user, body, test);
    SplitSnoc(Index(t, user), NewEntry(cs));
    SplitEmpty(Index(t, user), ',');
    SplitOne(NewEntry(cs), ',');
    if m < n {
      ChunkIs(body, 0, test, m);
      DataAt(body, m * CHUNK, test);
      ChunkHeld(t, user, body, test, m);
    }
  }

  lemma ChunkHeld(t: Tablet, user: string, body: string, test: Test, m: nat)
    requires user != "" && UPLOAD_NAME !in Listing(t, user) && m < |ChunksFrom(body, 0, test)|
    ensures var c := ChunksFrom(body, 0, test)[m];
            Cell(Upload(t, user, body, test).0, FileRow(user, UPLOAD_NAME), c.key) == Some(c.data)
  {
    hide Split, FindIn, FileRow, ChunksFrom, StoreChunks, Keys, NewEntry, Extended, Distinct, CleanKey;
    var cs, row := ChunksFrom(body, 0, test), FileRow(user, UPLOAD_NAME);
    ChunkKeysDistinct(body, 0, test);
    ChunkKeys(body, 0, test, 0);
    StoreChunksCells(t, row, cs);
    StoredChunk(t, row, cs, m);
    RowsDiffer(user, UPLOAD_NAME, UPLOAD_NAME);
    var stored := StoreChunks(t, row, cs);
    assert SameRow(stored, user, t, user);
    IndexWritten(t, stored, user, Extended(Index(t, user), NewEntry(cs)));
    assert SameRow(Upload(t, user, body, test).0, row, stored, row);
  }
}
