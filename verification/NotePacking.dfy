/**
  Packing a note into a tree of embeds (`internal/entity/note.go`) and filling in its files
  (`internal/entity/note_field_resolver.go`). Notes are objects that may refer to each other in cycles.
  */
module NotePacking {
  import opened Basics

  const MAX_NOTE_EMBED_DEPTH: nat := 2

  class Note {
    const id: string
    const fileIds: seq<string>
    const clippedCount: int
    /** The choices of the poll, when there is one. */
    const poll: Option<seq<string>>
    var renote: Note?
    var reply: Note?
  }

  /** A folder or a user, as far as files embed it. */
  datatype Row = Row(id: string, name: string)

  datatype File = File(id: string, name: string, folderId: Option<string>, userId: Option<string>)

  datatype PackedFile = PackedFile(file: File, folder: Option<Row>, owner: Option<Row>)

  datatype Entity = Entity(id: string, fileIds: seq<string>, files: seq<PackedFile>, clippedCount: Option<int>,
                           poll: Option<seq<string>>, renote: Option<Entity>, reply: Option<Entity>)

  // ----- packing -----

  /** packNoteAtDepth. */
  function PackNoteAtDepth(n: Note, depth: nat, detail: bool): Entity
    reads *
    decreases if depth < MAX_NOTE_EMBED_DEPTH then MAX_NOTE_EMBED_DEPTH - depth else 0
  {
    var embeds := detail && depth < MAX_NOTE_EMBED_DEPTH;
    Entity(n.id, n.fileIds, [],
           if detail then Some(n.clippedCount) else None,
           if detail then n.poll else None,
           if embeds && n.renote != null then Some(PackNoteAtDepth(n.renote, depth + 1, true)) else None,
           if embeds && n.reply != null then Some(PackNoteAtDepth(n.reply, depth + 1, false)) else None)
  }

  function PackNote(n: Note): Entity
    reads *
  {
    PackNoteAtDepth(n, 0, true)
  }

  datatype Embed = Renote | Reply

  /** The note a path of embeds leads to. */
  ghost function NoteAt(n: Note?, path: seq<Embed>): Note?
    reads *
    decreases |path|
  {
    if n == null || path == [] then n
    else NoteAt(if path[0] == Renote then n.renote else n.reply, path[1..])
  }

  ghost function EntityAt(e: Option<Entity>, path: seq<Embed>): Option<Entity>
    decreases |path|
  {
    if e.None? || path == [] then e
    else EntityAt(if path[0] == Renote then e.value.renote else e.value.reply, path[1..])
  }

  /** The paths that are packed: at most two embeds, and nothing below a reply. */
  ghost predicate Shown(path: seq<Embed>) {
    |path| <= 2 && forall i :: 0 <= i < |path| - 1 ==> path[i] == Renote
  }

  /**
    The packed tree is the graph unfolded along the shown paths and no further. A node has its note's data; a reply has
    neither clip count nor poll.
    */
  lemma PackIsUnfolding(n: Note, path: seq<Embed>)
    ensures var e := EntityAt(Some(PackNote(n)), path); var m := NoteAt(n, path);
            && (e.Some? <==> Shown(path) && m != null)
            && (e.Some? ==>
                  var detail := path == [] || path[|path| - 1] == Renote;
                  && e.value.id == m.id && e.value.fileIds == m.fileIds && e.value.files == []
                  && e.value.clippedCount == (if detail then Some(m.clippedCount) else None)
                  && e.value.poll == (if detail then m.poll else None))
  {
    UnfoldAt(n, 0, true, path);
  }

  lemma {:induction false} UnfoldAt(n: Note, depth: nat, detail: bool, path: seq<Embed>)
    requires depth <= MAX_NOTE_EMBED_DEPTH
    ensures var e := EntityAt(Some(PackNoteAtDepth(n, depth, detail)), path); var m := NoteAt(n, path);
            && (e.Some? <==> m != null && (path == [] || (detail && depth + |path| <= MAX_NOTE_EMBED_DEPTH &&
                                                          forall i :: 0 <= i < |path| - 1 ==> path[i] == Renote)))
            && (e.Some? ==>
                  var d := if path == [] then detail else path[|path| - 1] == Renote;
                  && e.value.id == m.id && e.value.fileIds == m.fileIds && e.value.files == []
                  && e.value.clippedCount == (if d then Some(m.clippedCount) else None)
                  && e.value.poll == (if d then m.poll else None))
    decreases |path|
  {
    if path == [] {
    } else {
      var next := if path[0] == Renote then n.renote else n.reply;
      var rest := path[1..];
      if next == null {
        NothingBelow(rest);
      } else if !detail || depth == MAX_NOTE_EMBED_DEPTH {
        NothingBelow(rest);
      } else {
        UnfoldAt(next, depth + 1, path[0] == Renote, rest);
        if forall i :: 0 <= i < |path| - 1 ==> path[i] == Renote {
          forall i | 0 <= i < |rest| - 1 ensures rest[i] == Renote {
            assert rest[i] == path[i + 1];
          }
        } else {
          var i :| 0 <= i < |path| - 1 && path[i] != Renote;
          assert i > 0 ==> rest[i - 1] == path[i];
        }
      }
    }
  }

  lemma NothingBelow(path: seq<Embed>)
    ensures EntityAt(None, path) == None && NoteAt(null, path) == null
  {}

  // ----- files -----

  type FileMap = map<string, File>

  /** Cached rows; `None` is a row that was asked for and not got. */
  type Cache = map<string, Option<Row>>

  /**
    A lookup of folders or users: absent, one query for many ids, or a query for each id. Any
    query may fail; it does not depend on the order of its ids. `None` is an error, and for a
    single id also a row that does not exist.
    */
  datatype Lookup = NoLookup | Batch(many: set<string> -> Option<seq<Row>>) | Single(one: string -> Option<Row>)

  type FileLookup = seq<string> -> Option<seq<File>>

  /** The tables, and the lookups of folders and users the resolver was given. */
  datatype Site = Site(
    files: FileMap, folders: Lookup, folderDb: map<string, Row>, users: Lookup, userDb: map<string, Row>)

  /** A query that answers has exactly the rows of the ids asked for. */
  ghost predicate Finds(find: FileLookup, db: FileMap) {
    (forall id :: id in db ==> db[id].id == id) &&
    forall ids: seq<string> {:trigger find(ids)} ::
      find(ids).Some? ==> forall f :: f in find(ids).value <==> f.id in ids && f.id in db && db[f.id] == f
  }

  ghost predicate Truthful(l: Lookup, db: map<string, Row>) {
    (forall id :: id in db ==> db[id].id == id) &&
    match l
    case NoLookup => true
    case Batch(many) =>
      forall ids: set<string> {:trigger many(ids)} ::
        many(ids).Some? ==> forall r :: r in many(ids).value <==> r.id in ids && r.id in db && db[r.id] == r
    case Single(one) =>
      forall id: string {:trigger one(id)} :: one(id).Some? ==> id in db && one(id).value == db[id]
  }

  /** appendNoteFileIDs. */
  function FileIds(e: Entity): seq<string> {
    e.fileIds + (if e.renote.Some? then FileIds(e.renote.value) else [])
    + (if e.reply.Some? then FileIds(e.reply.value) else [])
  }

  function AllIds(notes: seq<Entity>): seq<string> {
    if notes == [] then [] else AllIds(notes[..|notes| - 1]) + FileIds(notes[|notes| - 1])
  }

  function Cached(cache: Cache, id: Option<string>): Option<Row> {
    if id.Some? && id.value in cache then cache[id.value] else None
  }

  /** The rows a run has for a list of notes. */
  datatype Fetched = Fetched(files: FileMap, folders: Cache, users: Cache)

  function Embedded(got: Fetched, f: File): PackedFile {
    PackedFile(f, Cached(got.folders, f.folderId), Cached(got.users, f.userId))
  }

  /** The files of the ids that were found, in order. */
  function FilesFor(ids: seq<string>, got: Fetched): seq<PackedFile> {
    if ids == [] then []
    else
      var init, last := FilesFor(ids[..|ids| - 1], got), ids[|ids| - 1];
      if last in got.files then init + [Embedded(got, got.files[last])] else init
  }

  method PackNoteFiles(ids: seq<string>, got: Fetched) returns (packed: seq<PackedFile>)
    ensures packed == FilesFor(ids, got)
  {
    packed := [];
    for i := 0 to |ids|
      invariant packed == FilesFor(ids[..i], got)
    {
      assert ids[..i + 1][..i] == ids[..i];
      if ids[i] in got.files {
        packed := packed + [Embedded(got, got.files[ids[i]])];
      }
    }
    assert ids[..|ids|] == ids;
  }

  function Populated(e: Entity, got: Fetched): Entity {
    e.(files := FilesFor(e.fileIds, got),
       renote := if e.renote.Some? then Some(Populated(e.renote.value, got)) else None,
       reply := if e.reply.Some? then Some(Populated(e.reply.value, got)) else None)
  }

  function PopulatedAll(notes: seq<Entity>, got: Fetched): (r: seq<Entity>)
    ensures |r| == |notes| && forall i :: 0 <= i < |notes| ==> r[i] == Populated(notes[i], got)
  {
    seq(|notes|, i requires 0 <= i < |notes| => Populated(notes[i], got))
  }

  method PopulateNoteFiles(e: Entity, got: Fetched) returns (r: Entity)
    ensures r == Populated(e, got)
    decreases e
  {
    var packed := PackNoteFiles(e.fileIds, got);
    r := e.(files := packed);
    if e.renote.Some? {
      var embed := PopulateNoteFiles(e.renote.value, got);
      r := r.(renote := Some(embed));
    }
    if e.reply.Some? {
      var embed := PopulateNoteFiles(e.reply.value, got);
      r := r.(reply := Some(embed));
    }
  }

  /** Every node at every depth gets its own files, and nothing else of it changes. */
  lemma {:induction false} PopulatedAt(e: Entity, path: seq<Embed>, got: Fetched)
    ensures var a, r := EntityAt(Some(e), path), EntityAt(Some(Populated(e, got)), path);
            && (r.Some? <==> a.Some?)
            && (r.Some? ==>
                  r.value.files == FilesFor(a.value.fileIds, got) &&
                  r.value.(files := a.value.files, renote := a.value.renote, reply := a.value.reply) == a.value)
    decreases |path|
  {
    if path == [] {
    } else {
      var next := if path[0] == Renote then e.renote else e.reply;
      if next.Some? {
        PopulatedAt(next.value, path[1..], got);
      } else {
        NothingBelow(path[1..]);
      }
    }
  }

  // ----- what a run fetches -----

  /** The files of the ids that exist. */
  function Found(s: Site, ids: seq<string>): FileMap {
    map id | id in s.files && id in ids :: s.files[id]
  }

  function FolderIds(files: FileMap): set<string> {
    set id | id in files && files[id].folderId.Some? :: files[id].folderId.value
  }

  function UserIds(files: FileMap): set<string> {
    set id | id in files && files[id].userId.Some? :: files[id].userId.value
  }

  /** What is known of one id after asking for `wanted`: nothing when the query that has it failed. */
  function Learned(l: Lookup, db: map<string, Row>, wanted: set<string>, id: string): Option<Row> {
    match l
    case NoLookup => None
    case Batch(many) => if many(wanted).Some? && id in db then Some(db[id]) else None
    case Single(one) => one(id)
  }

  function Answers(l: Lookup, db: map<string, Row>, wanted: set<string>): Cache {
    map id | id in wanted && !l.NoLookup? :: Learned(l, db, wanted, id)
  }

  /** What the run works with. */
  function Actual(s: Site, ids: seq<string>): Fetched {
    var files := Found(s, ids);
    Fetched(files, Answers(s.folders, s.folderDb, FolderIds(files)), Answers(s.users, s.userDb, UserIds(files)))
  }

  /** What a single query for each id gives when none fails. */
  function Stored(l: Lookup, db: map<string, Row>, wanted: set<string>): Cache {
    map id | id in wanted && !l.NoLookup? :: if id in db then Some(db[id]) else None
  }

  function PerId(s: Site, ids: seq<string>): Fetched {
    var files := Found(s, ids);
    Fetched(files, Stored(s.folders, s.folderDb, FolderIds(files)), Stored(s.users, s.userDb, UserIds(files)))
  }

  /** Nothing that exists was lost to a failing query. */
  predicate Answered(l: Lookup, db: map<string, Row>, wanted: set<string>) {
    match l
    case NoLookup => true
    case Batch(many) => many(wanted).Some? || forall id :: id in wanted ==> id !in db
    case Single(one) => forall id :: id in wanted && id in db ==> one(id).Some?
  }

  lemma AnsweredIff(l: Lookup, db: map<string, Row>, wanted: set<string>)
    requires Truthful(l, db)
    ensures Answered(l, db, wanted) <==> Answers(l, db, wanted) == Stored(l, db, wanted)
  {
    var a, b := Answers(l, db, wanted), Stored(l, db, wanted);
    if Answered(l, db, wanted) {
      forall id | id in a ensures a[id] == b[id] {}
    } else {
      var id :| id in wanted && id in db && !l.NoLookup? && Learned(l, db, wanted, id).None?;
      assert a[id] != b[id];
    }
  }

  /** What the file gets of one kind: the row unless it, or the batch it is in, could not be read. */
  lemma EmbeddedRow(l: Lookup, db: map<string, Row>, wanted: set<string>, id: string)
    requires Truthful(l, db) && id in wanted
    ensures var row := Cached(Answers(l, db, wanted), Some(id));
            && (row.Some? ==> id in db && row.value == db[id])
            && (l.Batch? ==> (row.Some? <==> l.many(wanted).Some? && id in db))
            && (l.Single? ==> (row.Some? <==> l.one(id).Some?))
            && (l.NoLookup? ==> row.None?)
  {}

  // ----- what a resolved note says -----

  /** The files the ids stand for, in order and with repeats; ids without a file are left out. */
  function Existing<K(==), V>(ids: seq<K>, db: map<K, V>): seq<V> {
    if ids == [] then []
    else (if ids[0] in db then [db[ids[0]]] else []) + Existing(ids[1..], db)
  }

  /** The row of `id` as the lookup gives it; a batch asks for all ids of its kind at once. */
  predicate IsRow(row: Option<Row>, id: Option<string>, l: Lookup, db: map<string, Row>, all: set<string>) {
    if id.None? then row == None
    else match l
      case NoLookup => row == None
      case Batch(many) => row == if many(all) != None && id.value in db then Some(db[id.value]) else None
      case Single(one) => row == one(id.value)
  }

  /** The rows that files refer to, over all files with these ids. */
  ghost predicate AsksFor(folders: set<string>, users: set<string>, db: FileMap, ids: seq<string>) {
    && (forall x :: x in folders <==> exists id :: id in ids && id in db && db[id].folderId == Some(x))
    && (forall x :: x in users <==> exists id :: id in ids && id in db && db[id].userId == Some(x))
  }

  /** `files` are the files of `ids`, each with the folder its folderId names and the owner its userId names. */
  predicate IsFilled(files: seq<PackedFile>, ids: seq<string>, s: Site, folders: set<string>, users: set<string>) {
    var plain := Existing(ids, s.files);
    && |files| == |plain|
    && forall j :: 0 <= j < |files| ==>
         && files[j].file == plain[j]
         && IsRow(files[j].folder, plain[j].folderId, s.folders, s.folderDb, folders)
         && IsRow(files[j].owner, plain[j].userId, s.users, s.userDb, users)
  }

  lemma {:induction false} ExistingSnoc<K, V>(ids: seq<K>, id: K, db: map<K, V>)
    ensures Existing(ids + [id], db) == Existing(ids, db) + if id in db then [db[id]] else []
  {
    if ids == [] {
      assert ids + [id] == [id];
    } else {
      var head := if ids[0] in db then [db[ids[0]]] else [];
      assert (ids + [id])[0] == ids[0] && (ids + [id])[1..] == ids[1..] + [id];
      ExistingSnoc(ids[1..], id, db);
      Regroup(head, Existing(ids[1..], db), if id in db then [db[id]] else []);
    }
  }

  lemma Regroup<T>(a: seq<T>, b: seq<T>, c: seq<T>)
    ensures a + (b + c) == (a + b) + c
  {}

  lemma AsksForIs(s: Site, ids: seq<string>)
    ensures AsksFor(FolderIds(Found(s, ids)), UserIds(Found(s, ids)), s.files, ids)
  {
    var files := Found(s, ids);
    forall x
      ensures x in FolderIds(files) <==> exists id :: id in ids && id in s.files && s.files[id].folderId == Some(x)
    {
      if id :| id in ids && id in s.files && s.files[id].folderId == Some(x) {
        assert id in files && files[id].folderId == Some(x);
      }
    }
    forall x
      ensures x in UserIds(files) <==> exists id :: id in ids && id in s.files && s.files[id].userId == Some(x)
    {
      if id :| id in ids && id in s.files && s.files[id].userId == Some(x) {
        assert id in files && files[id].userId == Some(x);
      }
    }
  }

  lemma RowGot(l: Lookup, db: map<string, Row>, all: set<string>, id: Option<string>)
    requires Truthful(l, db) && (id.Some? ==> id.value in all)
    ensures IsRow(Cached(Answers(l, db, all), id), id, l, db, all)
  {}

  lemma FileGot(s: Site, ids: seq<string>, id: string)
    requires Truthful(s.folders, s.folderDb) && Truthful(s.users, s.userDb) && id in ids && id in s.files
    ensures var p := Embedded(Actual(s, ids), s.files[id]); var files := Found(s, ids);
            && p.file == s.files[id]
            && IsRow(p.folder, s.files[id].folderId, s.folders, s.folderDb, FolderIds(files))
            && IsRow(p.owner, s.files[id].userId, s.users, s.userDb, UserIds(files))
  {
    var files := Found(s, ids);
    assert id in files && files[id] == s.files[id];
    RowGot(s.folders, s.folderDb, FolderIds(files), files[id].folderId);
    RowGot(s.users, s.userDb, UserIds(files), files[id].userId);
  }

  lemma {:induction false} FilesAreFilled(own: seq<string>, s: Site, ids: seq<string>)
    requires Truthful(s.folders, s.folderDb) && Truthful(s.users, s.userDb) && forall id :: id in own ==> id in ids
    ensures var files := Found(s, ids);
            IsFilled(FilesFor(own, Actual(s, ids)), own, s, FolderIds(files), UserIds(files))
  {
    if own == [] {
    } else {
      var init, last := own[..|own| - 1], own[|own| - 1];
      assert own == init + [last];
      FilesAreFilled(init, s, ids);
      ExistingSnoc(init, last, s.files);
      if last in s.files {
        FileGot(s, ids, last);
      }
    }
  }

  /** The ids of every node are asked for. */
  lemma {:induction false} NodeIds(e: Entity, path: seq<Embed>, id: string)
    requires EntityAt(Some(e), path).Some? && id in EntityAt(Some(e), path).value.fileIds
    ensures id in FileIds(e)
    decreases |path|
  {
    if path == [] {
    } else {
      var next := if path[0] == Renote then e.renote else e.reply;
      if next.Some? {
        NodeIds(next.value, path[1..], id);
      } else {
        NothingBelow(path[1..]);
      }
    }
  }

  lemma {:induction false} ListedIds(notes: seq<Entity>, i: nat, id: string)
    requires i < |notes| && id in FileIds(notes[i])
    ensures id in AllIds(notes)
  {
    var last := |notes| - 1;
    if i < last {
      ListedIds(notes[..last], i, id);
    }
  }

  /** `after` is `before` with its files filled in: nothing else of this node changes. */
  predicate NodeFilled(before: Entity, after: Entity, s: Site, folders: set<string>, users: set<string>) {
    && IsFilled(after.files, before.fileIds, s, folders, users)
    && after.(files := before.files, renote := before.renote, reply := before.reply) == before
  }

  /** Every node of every note, however deep, is filled in. */
  lemma AllFilled(notes: seq<Entity>, s: Site, i: nat, path: seq<Embed>)
    requires Truthful(s.folders, s.folderDb) && Truthful(s.users, s.userDb) && i < |notes|
    ensures var ids := AllIds(notes); var files := Found(s, ids);
            var a, b := EntityAt(Some(notes[i]), path), EntityAt(Some(PopulatedAll(notes, Actual(s, ids))[i]), path);
            && (a.Some? <==> b.Some?)
            && (a.Some? ==> NodeFilled(a.value, b.value, s, FolderIds(files), UserIds(files)))
  {
    var ids := AllIds(notes);
    var a := EntityAt(Some(notes[i]), path);
    PopulatedAt(notes[i], path, Actual(s, ids));
    if a.Some? {
      forall id | id in a.value.fileIds ensures id in ids {
        NodeIds(notes[i], path, id);
        ListedIds(notes, i, id);
      }
      FilesAreFilled(a.value.fileIds, s, ids);
    }
  }

  // ----- the resolver -----

  /** fillFolderCache and fillUserCache, on a cache seeded with the ids. */
  method FillCache(l: Lookup, ids: seq<string>, seeded: Cache, ghost db: map<string, Row>) returns (cache: Cache)
    requires Truthful(l, db) && seeded.Keys == (set id | id in ids) && forall id :: id in seeded ==> seeded[id] == None
    ensures l.NoLookup? ==> cache == seeded
    ensures !l.NoLookup? ==> cache == Answers(l, db, set id | id in ids)
  {
    cache := seeded;
    if l.NoLookup? || |ids| == 0 {
      return;
    }
    if l.Batch? {
      var rows := l.many(set id | id in ids);
      if rows.Some? {
        cache := FillRows(rows.value, seeded);
        forall id | id in cache ensures cache[id] == Learned(l, db, (set k | k in ids), id) {
          if id in db {
            assert db[id] in rows.value;
          }
        }
      }
      return;
    }
    for i := 0 to |ids|
      invariant cache.Keys == seeded.Keys
      invariant forall id :: id in cache ==> cache[id] == if id in ids[..i] then l.one(id) else None
    {
      assert ids[..i + 1] == ids[..i] + [ids[i]];
      var row := l.one(ids[i]);
      if row.Some? {
        cache := cache[ids[i] := row];
      }
    }
    assert ids[..|ids|] == ids;
  }

  /** The loop over the rows of a batch; an id has one row. */
  method FillRows(rows: seq<Row>, seeded: Cache) returns (cache: Cache)
    requires forall r :: r in rows ==> r.id in seeded
    requires forall r, q :: r in rows && q in rows && r.id == q.id ==> r == q
    ensures cache.Keys == seeded.Keys
    ensures forall r :: r in rows ==> cache[r.id] == Some(r)
    ensures forall id :: id in seeded && (forall r :: r in rows ==> r.id != id) ==> cache[id] == seeded[id]
  {
    cache := seeded;
    for i := 0 to |rows|
      invariant cache.Keys == seeded.Keys
      invariant forall j :: 0 <= j < i ==> cache[rows[j].id] == Some(rows[j])
      invariant forall id :: id in seeded && (forall r :: r in rows ==> r.id != id) ==> cache[id] == seeded[id]
    {
      assert rows[i] in rows && forall j :: 0 <= j < i ==> rows[j] in rows;
      cache := cache[rows[i].id := Some(rows[i])];
    }
  }

  /** The distinct ids of one kind that files refer to, and the cache seeded with them. */
  method Collect(l: Lookup, wanted: seq<Option<string>>) returns (ids: seq<string>, seeded: Cache)
    ensures seeded.Keys == (set id | id in ids) && forall id :: id in seeded ==> seeded[id] == None
    ensures forall id :: id in ids <==> !l.NoLookup? && Some(id) in wanted
    ensures forall i, j :: 0 <= i < j < |ids| ==> ids[i] != ids[j]
  {
    ids, seeded := [], map[];
    for i := 0 to |wanted|
      invariant seeded.Keys == (set id | id in ids) && forall id :: id in seeded ==> seeded[id] == None
      invariant forall id :: id in ids <==> !l.NoLookup? && Some(id) in wanted[..i]
      invariant forall j, k :: 0 <= j < k < |ids| ==> ids[j] != ids[k]
    {
      assert wanted[..i + 1] == wanted[..i] + [wanted[i]];
      if !l.NoLookup? && wanted[i].Some? && wanted[i].value !in seeded {
        seeded := seeded[wanted[i].value := None];
        ids := ids + [wanted[i].value];
      }
    }
    assert wanted[..|wanted|] == wanted;
  }

  method FillKind(l: Lookup, wanted: seq<Option<string>>, ghost db: map<string, Row>) returns (cache: Cache)
    requires Truthful(l, db)
    ensures cache == Answers(l, db, Values(wanted))
  {
    var ids, seeded := Collect(l, wanted);
    cache := FillCache(l, ids, seeded, db);
    if l.NoLookup? {
      assert cache == map[];
    } else {
      assert Values(wanted) == set id | id in ids;
    }
  }

  function Values(wanted: seq<Option<string>>): (r: set<string>)
    ensures forall id :: id in r <==> Some(id) in wanted
  {
    var r := set w | w in wanted && w.Some? :: w.value;
    assert forall id :: Some(id) in wanted ==> Some(id).value in r;
    r
  }

  /** resolveFileOwners. */
  method ResolveFileOwners(rows: seq<File>, s: Site, ghost files: FileMap) returns (folders: Cache, users: Cache)
    requires Truthful(s.folders, s.folderDb) && Truthful(s.users, s.userDb)
    requires forall f :: f in rows <==> f in files.Values
    ensures folders == Answers(s.folders, s.folderDb, FolderIds(files))
    ensures users == Answers(s.users, s.userDb, UserIds(files))
  {
    var folderIds := seq(|rows|, i requires 0 <= i < |rows| => rows[i].folderId);
    var userIds := seq(|rows|, i requires 0 <= i < |rows| => rows[i].userId);
    folders := FillKind(s.folders, folderIds, s.folderDb);
    users := FillKind(s.users, userIds, s.userDb);
    WantedIds(rows, files, (f: File) => f.folderId, folderIds);
    WantedIds(rows, files, (f: File) => f.userId, userIds);
    assert FolderIds(files) == Values(folderIds);
    assert UserIds(files) == Values(userIds);
  }

  lemma WantedIds(rows: seq<File>, files: FileMap, of: File -> Option<string>, wanted: seq<Option<string>>)
    requires forall f :: f in rows <==> f in files.Values
    requires |wanted| == |rows| && forall i :: 0 <= i < |rows| ==> wanted[i] == of(rows[i])
    ensures forall id :: Some(id) in wanted <==> exists k :: k in files && of(files[k]) == Some(id)
  {
    forall id | Some(id) in wanted ensures exists k :: k in files && of(files[k]) == Some(id) {
      var i :| 0 <= i < |wanted| && wanted[i] == Some(id);
      assert rows[i] in rows;
      var k :| k in files && files[k] == rows[i];
    }
    forall k | k in files ensures of(files[k]) in wanted {
      assert files[k] in files.Values;
      var i :| 0 <= i < |rows| && rows[i] == files[k];
      assert wanted[i] in wanted;
    }
  }

  /** fetchNoteFiles. */
  method FetchNoteFiles(find: FileLookup, notes: seq<Entity>, ghost s: Site) returns (files: FileMap, ok: bool)
    requires Finds(find, s.files)
    ensures !ok && find(AllIds(notes)).Some? ==> Found(s, AllIds(notes)) == map[]
    ensures ok ==> find(AllIds(notes)).Some? && files == Found(s, AllIds(notes))
  {
    var ids: seq<string> := [];
    files := map[];
    for i := 0 to |notes|
      invariant ids == AllIds(notes[..i])
    {
      assert notes[..i + 1][..i] == notes[..i];
      ids := ids + FileIds(notes[i]);
    }
    assert notes[..|notes|] == notes;
    if |ids| == 0 {
      return files, false;
    }
    var rows := find(ids);
    assert rows.Some? ==> forall id :: id in ids && id in s.files ==> s.files[id] in rows.value;
    if rows.None? || |rows.value| == 0 {
      return files, false;
    }
    for i := 0 to |rows.value|
      invariant forall id :: id in files ==> id in s.files && id in ids && files[id] == s.files[id]
      invariant forall j :: 0 <= j < i ==> rows.value[j].id in files
    {
      assert rows.value[i] in rows.value;
      files := files[rows.value[i].id := rows.value[i]];
    }
    forall id | id in ids && id in s.files ensures id in files {
      var j :| 0 <= j < |rows.value| && rows.value[j] == s.files[id];
    }
    ok := true;
  }

  /** As packed: no node has files yet. */
  predicate Unfilled(e: Entity) {
    e.files == [] && (e.renote.Some? ==> Unfilled(e.renote.value)) && (e.reply.Some? ==> Unfilled(e.reply.value))
  }

  /** Every node of every note has its own existing files, with their own folders and owners. */
  ghost predicate Resolved(notes: seq<Entity>, r: seq<Entity>, s: Site) {
    |r| == |notes| &&
    exists folders, users ::
      AsksFor(folders, users, s.files, AllIds(notes)) &&
      forall i, path :: 0 <= i < |notes| ==>
        var a, b := EntityAt(Some(notes[i]), path), EntityAt(Some(r[i]), path);
        (a.Some? <==> b.Some?) && (a.Some? ==> NodeFilled(a.value, b.value, s, folders, users))
  }

  lemma AllResolved(notes: seq<Entity>, s: Site)
    requires Truthful(s.folders, s.folderDb) && Truthful(s.users, s.userDb)
    ensures Resolved(notes, PopulatedAll(notes, Actual(s, AllIds(notes))), s)
  {
    var ids := AllIds(notes);
    var r := PopulatedAll(notes, Actual(s, ids));
    var folders, users := FolderIds(Found(s, ids)), UserIds(Found(s, ids));
    AsksForIs(s, ids);
    forall i, path | 0 <= i < |notes|
      ensures var a, b := EntityAt(Some(notes[i]), path), EntityAt(Some(r[i]), path);
              (a.Some? <==> b.Some?) && (a.Some? ==> NodeFilled(a.value, b.value, s, folders, users))
    {
      AllFilled(notes, s, i, path);
    }
  }

  /**
    ResolveFiles: every node gets its own existing files, each with the folder and owner the lookups gave. Without a
    lookup of files, or when its query fails, nothing changes.
    */
  method ResolveFiles(find: Option<FileLookup>, notes: seq<Entity>, s: Site) returns (r: seq<Entity>)
    requires (find.Some? ==> Finds(find.value, s.files)) && Truthful(s.folders, s.folderDb)
    requires Truthful(s.users, s.userDb)
    requires forall i :: 0 <= i < |notes| ==> Unfilled(notes[i])
    ensures r == if find.None? || find.value(AllIds(notes)).None? then notes
                 else PopulatedAll(notes, Actual(s, AllIds(notes)))
    ensures find.Some? && find.value(AllIds(notes)).Some? ==> Resolved(notes, r, s)
  {
    AllResolved(notes, s);
    if find.None? {
      return notes;
    }
    var files, ok := FetchNoteFiles(find.value, notes, s);
    if !ok {
      if find.value(AllIds(notes)).Some? {
        NothingToPopulate(notes, Actual(s, AllIds(notes)));
      }
      return notes;
    }
    var rows := Rows(files);
    var folders, users := ResolveFileOwners(rows, s, files);
    r := PopulateAll(notes, Fetched(files, folders, users));
  }

  lemma {:induction false} NoFiles(ids: seq<string>, got: Fetched)
    requires got.files == map[]
    ensures FilesFor(ids, got) == []
  {
    if ids == [] {
    } else {
      NoFiles(ids[..|ids| - 1], got);
    }
  }

  lemma {:induction false} StaysUnfilled(e: Entity, got: Fetched)
    requires Unfilled(e) && got.files == map[]
    ensures Populated(e, got) == e
  {
    NoFiles(e.fileIds, got);
    if e.renote.Some? {
      StaysUnfilled(e.renote.value, got);
    }
    if e.reply.Some? {
      StaysUnfilled(e.reply.value, got);
    }
  }

  lemma NothingToPopulate(notes: seq<Entity>, got: Fetched)
    requires (forall i :: 0 <= i < |notes| ==> Unfilled(notes[i])) && got.files == map[]
    ensures PopulatedAll(notes, got) == notes
  {
    forall i | 0 <= i < |notes| ensures Populated(notes[i], got) == notes[i] {
      StaysUnfilled(notes[i], got);
    }
  }

  /** The loop over the notes of the list. */
  method PopulateAll(notes: seq<Entity>, got: Fetched) returns (r: seq<Entity>)
    ensures r == PopulatedAll(notes, got)
  {
    r := [];
    for i := 0 to |notes|
      invariant |r| == i
      invariant forall j :: 0 <= j < i ==> r[j] == Populated(notes[j], got)
    {
      var e := PopulateNoteFiles(notes[i], got);
      r := r + [e];
    }
  }

  /** The values of the map, in any order. */
  method Rows(files: FileMap) returns (rows: seq<File>)
    ensures forall f :: f in rows <==> f in files.Values
  {
    rows := [];
    var todo := files.Keys;
    while todo != {}
      invariant todo <= files.Keys && forall id :: id in files && id !in todo ==> files[id] in rows
      invariant forall f :: f in rows ==> f in files.Values
      decreases |todo|
    {
      var id :| id in todo;
      rows := rows + [files[id]];
      todo := todo - {id};
    }
  }

  // ----- batches against single lookups -----

  lemma {:induction false} SameFilesIff(ids: seq<string>, a: Fetched, b: Fetched)
    requires a.files == b.files
    ensures FilesFor(ids, a) == FilesFor(ids, b) <==> SameFor(ids, a, b)
    ensures |FilesFor(ids, a)| == |FilesFor(ids, b)|
  {
    if ids == [] {
    } else {
      var init, last := ids[..|ids| - 1], ids[|ids| - 1];
      SameFilesIff(init, a, b);
      SameForParts(init, [last], a, b);
      assert ids == init + [last];
      if last in a.files {
        SnocEqual(FilesFor(init, a), FilesFor(init, b), Embedded(a, a.files[last]), Embedded(b, a.files[last]));
      }
    }
  }

  lemma SnocEqual<T>(a: seq<T>, b: seq<T>, x: T, y: T)
    requires |a| == |b|
    ensures a + [x] == b + [y] <==> a == b && x == y
  {
    assert (a + [x])[..|a|] == a && (a + [x])[|a|] == x;
    assert (b + [y])[..|b|] == b && (b + [y])[|b|] == y;
  }

  /** The files of these ids come out the same. */
  ghost predicate SameFor(ids: seq<string>, a: Fetched, b: Fetched) {
    forall id :: id in ids && id in a.files ==> Embedded(a, a.files[id]) == Embedded(b, a.files[id])
  }

  lemma SameForParts(ids: seq<string>, more: seq<string>, a: Fetched, b: Fetched)
    requires a.files == b.files
    ensures SameFor(ids + more, a, b) <==> SameFor(ids, a, b) && SameFor(more, a, b)
  {
    forall id ensures id in ids + more <==> id in ids || id in more {}
  }

  lemma {:induction false} SameTreeIff(e: Entity, a: Fetched, b: Fetched)
    requires a.files == b.files
    ensures Populated(e, a) == Populated(e, b) <==> SameFor(FileIds(e), a, b)
  {
    var renotes := if e.renote.Some? then FileIds(e.renote.value) else [];
    var replies := if e.reply.Some? then FileIds(e.reply.value) else [];
    SameForParts(e.fileIds + renotes, replies, a, b);
    SameForParts(e.fileIds, renotes, a, b);
    SameFilesIff(e.fileIds, a, b);
    if e.renote.Some? {
      SameTreeIff(e.renote.value, a, b);
    }
    if e.reply.Some? {
      SameTreeIff(e.reply.value, a, b);
    }
  }

  lemma {:induction false} SameForAll(notes: seq<Entity>, a: Fetched, b: Fetched)
    requires a.files == b.files
    ensures SameFor(AllIds(notes), a, b) <==> forall i :: 0 <= i < |notes| ==> SameFor(FileIds(notes[i]), a, b)
  {
    if notes == [] {
    } else {
      var init, last := notes[..|notes| - 1], notes[|notes| - 1];
      SameForAll(init, a, b);
      SameForParts(AllIds(init), FileIds(last), a, b);
      assert notes == init + [last];
    }
  }

  lemma SameNotesIff(notes: seq<Entity>, a: Fetched, b: Fetched)
    requires a.files == b.files
    ensures PopulatedAll(notes, a) == PopulatedAll(notes, b) <==> SameFor(AllIds(notes), a, b)
  {
    SameForAll(notes, a, b);
    forall i | 0 <= i < |notes|
      ensures Populated(notes[i], a) == Populated(notes[i], b) <==> SameFor(FileIds(notes[i]), a, b)
    {
      SameTreeIff(notes[i], a, b);
    }
    if PopulatedAll(notes, a) == PopulatedAll(notes, b) {
      forall i | 0 <= i < |notes| ensures Populated(notes[i], a) == Populated(notes[i], b) {
        assert PopulatedAll(notes, a)[i] == PopulatedAll(notes, b)[i];
      }
    }
  }

  /**
    The notes come out as with a single query for each id exactly when no folder or owner that exists was lost to a
    failing query: a batch that fails loses all of them, a single query its own.
    */
  lemma PerIdIff(notes: seq<Entity>, s: Site)
    requires Truthful(s.folders, s.folderDb) && Truthful(s.users, s.userDb)
    ensures var ids := AllIds(notes); var files := Found(s, ids);
            PopulatedAll(notes, Actual(s, ids)) == PopulatedAll(notes, PerId(s, ids)) <==>
            Answered(s.folders, s.folderDb, FolderIds(files)) && Answered(s.users, s.userDb, UserIds(files))
  {
    var ids := AllIds(notes);
    var files, a, b := Found(s, ids), Actual(s, ids), PerId(s, ids);
    SameNotesIff(notes, a, b);
    AnsweredIff(s.folders, s.folderDb, FolderIds(files));
    AnsweredIff(s.users, s.userDb, UserIds(files));
    if SameFor(ids, a, b) {
      forall id | id in a.folders ensures a.folders[id] == b.folders[id] {
        var k :| k in files && files[k].folderId == Some(id);
        assert Embedded(a, files[k]) == Embedded(b, files[k]);
      }
      forall id | id in a.users ensures a.users[id] == b.users[id] {
        var k :| k in files && files[k].userId == Some(id);
        assert Embedded(a, files[k]) == Embedded(b, files[k]);
      }
      assert a.folders == b.folders && a.users == b.users;
    }
  }

  /** Two executions on the same tables, one with batches and one without, agree when neither loses a row. */
  lemma BatchIsPerId(notes: seq<Entity>, s: Site, t: Site)
    requires t == s.(folders := t.folders, users := t.users)
    requires s.folders.Batch? && s.users.Batch? && t.folders.Single? && t.users.Single?
    requires Truthful(s.folders, s.folderDb) && Truthful(s.users, s.userDb)
    requires Truthful(t.folders, s.folderDb) && Truthful(t.users, s.userDb)
    requires var files := Found(s, AllIds(notes));
             && Answered(s.folders, s.folderDb, FolderIds(files)) && Answered(s.users, s.userDb, UserIds(files))
             && Answered(t.folders, s.folderDb, FolderIds(files)) && Answered(t.users, s.userDb, UserIds(files))
    ensures PopulatedAll(notes, Actual(s, AllIds(notes))) == PopulatedAll(notes, Actual(t, AllIds(notes)))
  {
    var ids := AllIds(notes);
    PerIdIff(notes, s);
    PerIdIff(notes, t);
    assert Found(s, ids) == Found(t, ids);
    assert PerId(s, ids) == PerId(t, ids);
  }

  /** The condition is needed: a note with one file in a folder, and a batch of folders that fails. */
  lemma FailingBatchLosesFolders(note: Entity, f: File, row: Row, users: Lookup)
    requires note.fileIds == [f.id] && note.renote == None && note.reply == None && f.folderId == Some(row.id)
    requires Truthful(users, map[])
    ensures var s := Site(map[f.id := f], Batch(ids => None), map[row.id := row], users, map[]);
            && Truthful(s.folders, s.folderDb)
            && PopulatedAll([note], Actual(s, AllIds([note]))) != PopulatedAll([note], PerId(s, AllIds([note])))
  {
    var s := Site(map[f.id := f], Batch(ids => None), map[row.id := row], users, map[]);
    OneFile(note, f.id);
    LostFolder([note], s, f.id, row.id);
  }

  lemma OneFile(note: Entity, id: string)
    requires note.fileIds == [id] && note.renote == None && note.reply == None
    ensures AllIds([note]) == [id]
  {
    assert [note][..0] == [];
  }

  /** A file in a folder that exists, and a batch of folders that fails. */
  lemma LostFolder(notes: seq<Entity>, s: Site, file: string, folder: string)
    requires Truthful(s.folders, s.folderDb) && Truthful(s.users, s.userDb)
    requires s.folders.Batch? && s.folders.many(FolderIds(Found(s, AllIds(notes)))) == None
    requires file in Found(s, AllIds(notes)) && Found(s, AllIds(notes))[file].folderId == Some(folder)
    requires folder in s.folderDb
    ensures PopulatedAll(notes, Actual(s, AllIds(notes))) != PopulatedAll(notes, PerId(s, AllIds(notes)))
  {
    assert folder in FolderIds(Found(s, AllIds(notes)));
    PerIdIff(notes, s);
  }
}
