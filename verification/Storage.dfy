// A user's files: an index string names, for every path, the keys its bytes are stored under.
// An index entry is  path:key+key+..+key  for a file and  path  for a folder; commas separate entries.
module Storage {
  import opened Tablets
  import opened Decimals
  import opened Format
  import opened Lists
  import opened KvClient

  const INDEX_COL: string := "storage"
  const UPLOAD_NAME: string := "untitled"
  const CHUNK: nat := 2_000_000

  // ---- the index ----

  function FileRow(user: string, path: string): string {
    user + ":" + path
  }

  /** getdefault of the index cell. */
  function Index(t: Tablet, user: string): string {
    match Cell(t, user, INDEX_COL)
    case Some(v) => v
    case None => ""
  }

  function Listing(t: Tablet, user: string): seq<string> {
    Split(Index(t, user), ',')
  }

  function Colon(e: string): (i: int)
    ensures -1 <= i < |e|
  {
    FindIn(e, 0, {':'})
  }

  predicate IsFile(e: string) {
    Colon(e) >= 0
  }

  function PathOf(e: string): string {
    if IsFile(e) then e[..Colon(e)] else e
  }

  function KeysOf(e: string): seq<string> {
    if IsFile(e) then Split(e[Colon(e) + 1..], '+') else []
  }

  predicate Names(e: string, path: string) {
    IsFile(e) && PathOf(e) == path
  }

  // ---- download ----

  /** A get as the client sees it: None is the exception. */
  function Read(t: Tablet, row: string, key: string): Option<string> {
    if key == "" then None else Cell(t, row, key)
  }

  /** What has been read when the loop ends, and whether an exception ended it. */
  datatype Fetched = Fetched(content: string, failed: bool)

  function Before(s: string, f: Fetched): Fetched {
    Fetched(s + f.content, f.failed)
  }

  function Fetch(t: Tablet, row: string, keys: seq<string>): Fetched {
    if keys == [] then Fetched("", false)
    else
      var v := Read(t, row, keys[0]);
      if v.None? then Fetched("", true) else Before(v.value, Fetch(t, row, keys[1..]))
  }

  function Gather(t: Tablet, user: string, es: seq<string>, path: string): Fetched {
    if es == [] then Fetched("", false)
    else if !Names(es[0], path) then Gather(t, user, es[1..], path)
    else
      var f := Fetch(t, FileRow(user, path), KeysOf(es[0]));
      if f.failed then f else Before(f.content, Gather(t, user, es[1..], path))
  }

  function Download(t: Tablet, user: string, path: string): string {
    Gather(t, user, Listing(t, user), path).content
  }

  // ---- moves ----

  /** The store when the moving stops, and whether an exception stopped it. */
  datatype Moved = Moved(store: Tablet, failed: bool)

  function MoveKeys(t: Tablet, from: string, to: string, keys: seq<string>): Moved
    decreases |keys|
  {
    if keys == [] then Moved(t, false)
    else
      var v := Read(t, from, keys[0]);
      if v.None? then Moved(t, true)
      else MoveKeys(DoDelete(DoPut(t, to, keys[0], v.value), from, keys[0]), from, to, keys[1..])
  }

  function NewPath(path: string, from: string, target: string): string {
    if from <= path then target + path[|from|..] else path
  }

  /** movefile moves the first entry with that path. */
  function MoveFirst(t: Tablet, user: string, from: string, target: string, es: seq<string>): (r: (Moved, seq<string>))
    ensures |r.1| == |es|
  {
    if es == [] then (Moved(t, false), [])
    else if Names(es[0], from) then
      (MoveKeys(t, FileRow(user, from), FileRow(user, target), KeysOf(es[0])), [NewPath(es[0], from, target)] + es[1..])
    else
      var (m, rest) := MoveFirst(t, user, from, target, es[1..]);
      (m, [es[0]] + rest)
  }

  // One entry of movefolder; a prefix longer than the path raises an exception.
  function MoveEntry(t: Tablet, user: string, from: string, target: string, e: string): Moved {
    if !(from <= e) || !IsFile(e) then Moved(t, false)
    else if |from| > |PathOf(e)| then Moved(t, true)
    else MoveKeys(t, FileRow(user, PathOf(e)), FileRow(user, NewPath(PathOf(e), from, target)), KeysOf(e))
  }

  /** movefolder moves every entry with that prefix. */
  function MoveAll(t: Tablet, user: string, from: string, target: string, es: seq<string>): (r: (Moved, seq<string>))
    ensures !r.0.failed ==> |r.1| == |es|
    decreases |es|
  {
    if es == [] then (Moved(t, false), [])
    else
      var m := MoveEntry(t, user, from, target, es[0]);
      if m.failed then (m, [])
      else
        var (m', rest) := MoveAll(m.store, user, from, target, es[1..]);
        (m', [NewPath(es[0], from, target)] + rest)
  }

  predicate SomePrefixed(es: seq<string>, target: string) {
    exists i :: 0 <= i < |es| && target <= es[i]
  }

  /** A file's path drops one slash at its end, a folder's path has one. */
  function FileTarget(target: string): (r: string)
    ensures r == target || r + "/" == target
    ensures target != "" && target[|target| - 1] == '/' ==> r + "/" == target
    ensures target == "" || target[|target| - 1] != '/' ==> r == target
  {
    DropBack(target, '/')
  }

  function FolderTarget(target: string): (r: string)
    ensures r == target || r == target + "/"
    ensures r != "" && r[|r| - 1] == '/'
    ensures target != "" && target[|target| - 1] == '/' ==> r == target
  {
    if EndsWith(target, '/') then target else target + "/"
  }

  // The index is written only when no exception was raised.
  function Reindex(t: Tablet, user: string, m: Moved, es: seq<string>): Tablet {
    if m.failed then m.store else ServeCPut(m.store, user, INDEX_COL, Index(t, user), Join(es, ',')).0
  }

  /** The new store, and whether the target was reported as existing. */
  function MoveFile(t: Tablet, user: string, from: string, to: string): (Tablet, bool) {
    var es, target := Listing(t, user), FileTarget(to);
    if SomePrefixed(es, target) then (t, true)
    else
      var (m, es') := MoveFirst(t, user, from, target, es);
      (Reindex(t, user, m, es'), false)
  }

  function MoveFolder(t: Tablet, user: string, from: string, to: string): (Tablet, bool) {
    var es, target := Listing(t, user), FolderTarget(to);
    if target in es then (t, true)
    else
      var (m, es') := MoveAll(t, user, from, target, es);
      (Reindex(t, user, m, es'), false)
  }
}
