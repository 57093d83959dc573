/**
  Repointing approved emoji at system-owned copies (`internal/maintenance/emoji_system_file_backfill.go`).

  Other writers may change any row between two calls of the run, a read may fail, an UPDATE may take effect and still
  report an error, and so may a deletion. What others never do is write the URL of a copy this run made: those names
  are random and nobody has seen them.
  */
module EmojiRepair {
  import opened Basics

  datatype Emoji = Emoji(originalUrl: string, publicUrl: string, mime: Option<string>, updatedAt: int)

  datatype File = File(url: string, webpublicUrl: Option<string>, mime: string, webpublicMime: Option<string>,
                       userId: Option<string>, userHost: Option<string>, isLink: bool, accessKey: Option<string>)

  datatype App = App(id: string, own: bool, approved: bool, emojiId: Option<string>, fileId: Option<string>)

  datatype Outcome = Copied | Already | Skipped | NeedsReview | Unrepairable | Failed

  /** `copied` is the id of the copy the emoji now uses, else empty. */
  datatype Entry = Entry(app: string, outcome: Outcome, copied: string)

  datatype Report = Report(scanned: nat, copied: nat, already: nat, skipped: nat, needsReview: nat, unrepairable: nat,
                           failed: nat, entries: seq<Entry>)

  datatype Read<T> = ReadFailed | Absent | Found(value: T)

  datatype CopyResult = NotInStorage | TooLarge | CopyFailed | NothingReturned | Made(id: string, file: File)

  datatype Update = UpdateFailed | Updated(rows: nat)

  type Emojis = map<string, Emoji>
  type Files = map<string, File>

  const EMOJI_URL_MAX_RUNES := 512

  // ----- rows -----

  predicate SystemOwned(f: File) {
    f.userId.None? && f.userHost.None?
  }

  function PreferWebpublicUrl(f: File): string {
    if f.webpublicUrl.Some? && f.webpublicUrl.value != "" then f.webpublicUrl.value else f.url
  }

  function PreferWebpublicMime(f: File): Option<string> {
    if f.webpublicMime.Some? && f.webpublicMime.value != "" then f.webpublicMime
    else if f.mime != "" then Some(f.mime)
    else None
  }

  predicate Fits(s: string) {
    '\0' !in s && |s| <= EMOJI_URL_MAX_RUNES
  }

  function Deref(s: Option<string>): string {
    if s.Some? then s.value else ""
  }

  predicate HasBody(f: File) {
    !f.isLink && Deref(f.accessKey) != "" && f.url != ""
  }

  /** A system-owned file is what this URL stands for. */
  predicate OwnedAt(files: Files, url: string) {
    url != "" && exists f :: f in files && files[f].url == url && SystemOwned(files[f])
  }

  function Repointed(e: Emoji, f: File, now: int): Emoji {
    Emoji(f.url, PreferWebpublicUrl(f), PreferWebpublicMime(f), now)
  }

  /** What the rows call for. */
  datatype Plan = Skip | Leave | Review | GiveUp | Copy

  function PlanFor(allowed: set<string>, emojis: Emojis, files: Files, app: App): Plan {
    var e, s := Deref(app.emojiId), Deref(app.fileId);
    if e == "" || e !in emojis then Skip
    else if OwnedAt(files, emojis[e].originalUrl) then Leave
    else if s == "" || s !in files then GiveUp
    else if emojis[e].originalUrl != files[s].url then Review
    else if files[s].mime !in allowed || !HasBody(files[s]) then GiveUp
    else Copy
  }

  /** The outcomes a plan can come to. Only a repair can both succeed and turn out impossible. */
  predicate Fulfils(plan: Plan, o: Outcome, apply: bool) {
    match plan
    case Skip => o == Skipped
    case Leave => o == Already
    case Review => o == NeedsReview
    case GiveUp => o == Unrepairable
    case Copy => o == Copied || (apply && o == Unrepairable)
  }

  /** The emoji the application is about. */
  predicate EmojiThere(emojis: Emojis, app: App) {
    app.emojiId.Some? && app.emojiId.value != "" && app.emojiId.value in emojis
  }

  predicate FileThere(files: Files, app: App) {
    app.fileId.Some? && app.fileId.value != "" && app.fileId.value in files
  }

  /** Some file of the instance itself is at the URL the emoji shows. */
  predicate ShowsOwn(emojis: Emojis, files: Files, app: App)
    requires EmojiThere(emojis, app)
  {
    var url := emojis[app.emojiId.value].originalUrl;
    url != "" && exists f :: f in files && files[f].url == url && files[f].userId == None && files[f].userHost == None
  }

  /** The application's file is stored here and may be an emoji. */
  predicate CanBeCopied(allowed: set<string>, f: File) {
    f.mime in allowed && !f.isLink && f.accessKey.Some? && f.accessKey.value != "" && f.url != ""
  }

  /**
    Which outcome the rows call for, over their columns. A row is copied for exactly when
    its emoji exists and shows no file of the instance, and the application's file exists,
    is what the emoji shows, and can be copied.
    */
  lemma OutcomeIs(allowed: set<string>, emojis: Emojis, files: Files, app: App)
    ensures var plan := PlanFor(allowed, emojis, files, app);
            var there := EmojiThere(emojis, app);
            var other := there && !ShowsOwn(emojis, files, app);
            var shown := other && FileThere(files, app) &&
                         files[app.fileId.value].url == emojis[app.emojiId.value].originalUrl;
            && (plan == Copy <==> shown && CanBeCopied(allowed, files[app.fileId.value]))
            && (forall apply :: Fulfils(plan, Skipped, apply) <==> !there)
            && (forall apply :: Fulfils(plan, Already, apply) <==> there && ShowsOwn(emojis, files, app))
            && (forall apply :: Fulfils(plan, NeedsReview, apply) <==> other && FileThere(files, app) && !shown)
            && (Fulfils(plan, Unrepairable, false) <==>
                  other && (FileThere(files, app) ==> shown && !CanBeCopied(allowed, files[app.fileId.value])))
            && (forall apply :: Fulfils(plan, Copied, apply) <==> plan == Copy)
            && (forall apply :: !Fulfils(plan, Failed, apply))
  {}

  /** What a copy comes to: put away if it cannot be an emoji, else taken into use or given up. */
  predicate CopyComesTo(allowed: set<string>, made: CopyResult, o: Outcome) {
    match made
    case NotInStorage => o == Unrepairable
    case TooLarge => o == Unrepairable
    case CopyFailed => o == Failed
    case NothingReturned => o == Failed
    case Made(_, f) => if Usable(allowed, f) then o == Copied || o == Failed else o == Unrepairable
  }

  /** Its type is allowed, and both URLs fit the columns of an emoji. */
  predicate Usable(allowed: set<string>, f: File) {
    && f.mime in allowed && |f.url| <= 512 && '\0' !in f.url
    && (f.webpublicUrl.Some? ==> |f.webpublicUrl.value| <= 512 && '\0' !in f.webpublicUrl.value)
  }

  /** The emoji shows the copy afterwards: its URL, and the public URL and type where the copy has them. */
  lemma RepointedIs(e: Emoji, f: File, now: int)
    ensures var r := Repointed(e, f, now);
            && r.originalUrl == f.url && r.updatedAt == now
            && (f.webpublicUrl in {None, Some("")} ==> r.publicUrl == f.url)
            && (f.webpublicUrl !in {None, Some("")} ==> Some(r.publicUrl) == f.webpublicUrl)
            && (f.webpublicMime !in {None, Some("")} ==> r.mime == f.webpublicMime)
            && (f.webpublicMime in {None, Some("")} ==> r.mime == if f.mime == "" then None else Some(f.mime))
  {}

  /** Nothing this batch does can change the row any more. */
  predicate Done(emojis: Emojis, files: Files, e: string) {
    e in emojis && (emojis[e].originalUrl == "" || OwnedAt(files, emojis[e].originalUrl))
  }

  /** A settled row is never planned for a copy, and is left as it is exactly when its URL is not empty. */
  lemma DoneIsNotCopied(allowed: set<string>, emojis: Emojis, files: Files, app: App)
    requires Done(emojis, files, Deref(app.emojiId)) && Deref(app.emojiId) != ""
    ensures PlanFor(allowed, emojis, files, app) != Copy
    ensures PlanFor(allowed, emojis, files, app) == Leave <==> emojis[Deref(app.emojiId)].originalUrl != ""
  {}

  /** Files that stay and rows that stay keep a row settled. */
  lemma DoneStays(emojis: Emojis, files: Files, emojis': Emojis, files': Files, e: string)
    requires Done(emojis, files, e) && e in emojis' && emojis'[e] == emojis[e]
    requires forall f :: f in files ==> f in files' && files'[f] == files[f]
    ensures Done(emojis', files', e)
  {
    if emojis[e].originalUrl != "" {
      var f :| f in files && files[f].url == emojis[e].originalUrl && SystemOwned(files[f]);
      assert f in files' && files'[f].url == emojis[e].originalUrl;
    }
  }

  /**
    What a repair without other writers leaves: the row as it was, or pointing at a new system-owned file that is kept.
    A reported copy is the second.
    */
  ghost predicate RepairDone(entry: Entry, emojis: Emojis, emojis': Emojis, files: Files, files': Files, e: string,
                             now: int)
    requires e in emojis
  {
    && (emojis' == emojis || exists f :: f in files' && f !in files && SystemOwned(files'[f])
                                         && emojis' == emojis[e := Repointed(emojis[e], files'[f], now)])
    && (entry.outcome == Copied ==>
          && entry.copied in files' && entry.copied !in files && SystemOwned(files'[entry.copied])
          && emojis' == emojis[e := Repointed(emojis[e], files'[entry.copied], now)])
    && (entry.outcome == Unrepairable ==> emojis' == emojis)
  }

  ghost predicate InUse(entry: Entry, emojis: Emojis, emojis': Emojis, files': Files, e: string, id: string, f: File,
                        now: int)
    requires e in emojis
  {
    if emojis' == emojis then entry.outcome == Failed
    else emojis' == emojis[e := Repointed(emojis[e], f, now)] && id in files' && files'[id] == f
         && (entry.outcome == Copied ==> entry.copied == id)
  }

  // ----- the list and the report -----

  predicate Candidate(app: App) {
    app.own && app.approved && app.emojiId.Some? && app.fileId.Some?
  }

  function Filter(apps: seq<App>): (r: seq<App>)
    ensures forall a :: a in r <==> a in apps && Candidate(a)
  {
    if apps == [] then []
    else Filter(apps[..|apps| - 1]) + (if Candidate(apps[|apps| - 1]) then [apps[|apps| - 1]] else [])
  }

  /** findApprovedOwnApplications; `apps` is the table in id order. */
  function Candidates(apps: seq<App>, limit: int): seq<App> {
    var all := Filter(apps);
    if 0 < limit < |all| then all[..limit] else all
  }

  /** Approved applications of the own kind with an emoji and a file, in order; at most `limit` if it is positive. */
  lemma CandidatesAre(apps: seq<App>, app: App, limit: int)
    ensures Candidates(apps + [app], 0) ==
            Candidates(apps, 0) +
            if app.own && app.approved && app.emojiId != None && app.fileId != None then [app] else []
    ensures Candidates([], 0) == []
    ensures Candidates(apps, limit) <= Candidates(apps, 0)
    ensures |Candidates(apps, limit)| ==
            if 0 < limit < |Candidates(apps, 0)| then limit else |Candidates(apps, 0)|
  {
    assert (apps + [app])[..|apps|] == apps;
  }

  ghost predicate DistinctIds(apps: seq<App>) {
    forall i, j :: 0 <= i < j < |apps| ==> apps[i].id != apps[j].id
  }

  lemma {:induction false} FilterDistinct(apps: seq<App>)
    requires DistinctIds(apps)
    ensures DistinctIds(Filter(apps))
  {
    if apps == [] {
    } else {
      var n := |apps| - 1;
      FilterDistinct(apps[..n]);
      forall a | a in Filter(apps[..n]) ensures a.id != apps[n].id {
        var i :| 0 <= i < n && apps[i] == a;
      }
    }
  }

  lemma CandidatesDistinct(apps: seq<App>, limit: int)
    requires DistinctIds(apps)
    ensures DistinctIds(Candidates(apps, limit))
  {
    FilterDistinct(apps);
  }

  function Count(entries: seq<Entry>, o: Outcome): nat {
    if entries == [] then 0
    else Count(entries[..|entries| - 1], o) + (if entries[|entries| - 1].outcome == o then 1 else 0)
  }

  lemma CountSnoc(entries: seq<Entry>, e: Entry, o: Outcome)
    ensures Count(entries + [e], o) == Count(entries, o) + (if e.outcome == o then 1 else 0)
  {
    assert (entries + [e])[..|entries|] == entries;
  }

  /** Each counter counts its outcome. */
  predicate Tallied(r: Report) {
    && r.scanned == |r.entries|
    && r.copied == Count(r.entries, Copied) && r.already == Count(r.entries, Already)
    && r.skipped == Count(r.entries, Skipped) && r.needsReview == Count(r.entries, NeedsReview)
    && r.unrepairable == Count(r.entries, Unrepairable) && r.failed == Count(r.entries, Failed)
  }

  /** So the counters add up to the rows scanned. */
  lemma {:induction false} CountersSum(entries: seq<Entry>)
    ensures Count(entries, Copied) + Count(entries, Already) + Count(entries, Skipped) + Count(entries, NeedsReview)
            + Count(entries, Unrepairable) + Count(entries, Failed) == |entries|
  {
    if entries == [] {
    } else {
      CountersSum(entries[..|entries| - 1]);
    }
  }

  function Counted(r: Report, e: Entry): Report {
    var s := r.(scanned := r.scanned + 1, entries := r.entries + [e]);
    match e.outcome
    case Copied => s.(copied := r.copied + 1)
    case Already => s.(already := r.already + 1)
    case Skipped => s.(skipped := r.skipped + 1)
    case NeedsReview => s.(needsReview := r.needsReview + 1)
    case Unrepairable => s.(unrepairable := r.unrepairable + 1)
    case Failed => s.(failed := r.failed + 1)
  }

  lemma CountedTallied(r: Report, e: Entry)
    requires Tallied(r)
    ensures Tallied(Counted(r, e)) && Counted(r, e).entries == r.entries + [e]
  {
    forall o: Outcome ensures Count(r.entries + [e], o) == Count(r.entries, o) + (if e.outcome == o then 1 else 0) {
      CountSnoc(r.entries, e, o);
    }
  }

  ghost predicate FilesKept(files: Files, files': Files) {
    forall f :: f in files ==> f in files' && files'[f] == files[f]
  }

  ghost predicate RowsStayDone(emojis: Emojis, files: Files, emojis': Emojis, files': Files) {
    forall e :: Done(emojis, files, e) ==> Done(emojis', files', e) && emojis'[e] == emojis[e]
  }

  /** A repaired row, as the end of a run shows it. */
  ghost predicate CopiedRow(emojis: Emojis, files: Files, e: string, copied: string) {
    && e != "" && copied in files && SystemOwned(files[copied])
    && Done(emojis, files, e) && emojis[e].originalUrl == files[copied].url
  }

  /** A copy in use leaves its row settled. */
  lemma RepairedIsCopied(entry: Entry, emojis: Emojis, emojis': Emojis, files: Files, files': Files, e: string,
                         now: int)
    requires e != "" && e in emojis && RepairDone(entry, emojis, emojis', files, files', e, now)
    requires entry.outcome == Copied
    ensures CopiedRow(emojis', files', e, entry.copied)
  {}

  /** What one row's processing may do to the tables without other writers. */
  ghost predicate RowStep(allowed: set<string>, app: App, apply: bool, now: int, entry: Entry, emojis: Emojis,
                          files: Files,
                          emojis': Emojis, files': Files) {
    && FilesKept(files, files')
    && (if apply && PlanFor(allowed, emojis, files, app) == Copy
        then RepairDone(entry, emojis, emojis', files, files', Deref(app.emojiId), now)
        else emojis' == emojis && files' == files)
  }

  lemma StepKeepsDone(allowed: set<string>, app: App, apply: bool, now: int, entry: Entry, emojis: Emojis, files: Files,
                      emojis': Emojis, files': Files)
    requires RowStep(allowed, app, apply, now, entry, emojis, files, emojis', files')
    ensures RowsStayDone(emojis, files, emojis', files')
  {
    forall e | Done(emojis, files, e) ensures Done(emojis', files', e) && emojis'[e] == emojis[e] {
      if e == Deref(app.emojiId) && PlanFor(allowed, emojis, files, app) == Copy {
        DoneIsNotCopied(allowed, emojis, files, app);
      }
      assert e in emojis' && emojis'[e] == emojis[e];
      DoneStays(emojis, files, emojis', files', e);
    }
  }

  lemma CopiedRowStays(emojis: Emojis, files: Files, emojis': Emojis, files': Files, e: string, copied: string)
    requires CopiedRow(emojis, files, e, copied) && FilesKept(files, files')
    requires RowsStayDone(emojis, files, emojis', files')
    ensures CopiedRow(emojis', files', e, copied)
  {}

  /** How an applying run's entries stand to the tables at its end. */
  ghost predicate CopiedRows(cands: seq<App>, entries: seq<Entry>, emojis: Emojis, files: Files) {
    |entries| <= |cands| &&
    forall i :: 0 <= i < |entries| && entries[i].outcome == Copied ==>
      CopiedRow(emojis, files, Deref(cands[i].emojiId), entries[i].copied)
  }

  /**
    Rows settled before the run are left alone: no copy is made for them, and one that
    points somewhere is found `already` repaired unless a read failed.
    */
  ghost predicate LeftAlone(cands: seq<App>, entries: seq<Entry>, emojis: Emojis, files: Files, copiedFor: set<string>,
                            readsWork: bool) {
    |entries| <= |cands| &&
    forall i :: 0 <= i < |entries| && Deref(cands[i].emojiId) != "" && Done(emojis, files, Deref(cands[i].emojiId)) ==>
      && cands[i].id !in copiedFor
      && SettledOutcome(entries[i].outcome, emojis[Deref(cands[i].emojiId)].originalUrl, readsWork)
  }

  /** What a settled row with this URL can be called. */
  predicate SettledOutcome(o: Outcome, url: string, readsWork: bool) {
    && o != Copied
    && (url != "" ==> o == Already || o == Failed)
    && (o == Already ==> url != "")
    && (readsWork ==> o != Failed)
  }

  lemma RunStarts(cands: seq<App>, emojis: Emojis, files: Files)
    ensures FilesKept(files, files) && RowsStayDone(emojis, files, emojis, files)
    ensures CopiedRows(cands, [], emojis, files) && LeftAlone(cands, [], emojis, files, {}, true)
    ensures LeftAlone(cands, [], emojis, files, {}, false)
  {}

  lemma CopiedRowsNext(cands: seq<App>, entries: seq<Entry>, entry: Entry, emojis: Emojis, files: Files,
                       emojis': Emojis, files': Files)
    requires CopiedRows(cands, entries, emojis, files) && |entries| < |cands|
    requires FilesKept(files, files') && RowsStayDone(emojis, files, emojis', files')
    requires entry.outcome == Copied ==> CopiedRow(emojis', files', Deref(cands[|entries|].emojiId), entry.copied)
    ensures CopiedRows(cands, entries + [entry], emojis', files')
  {
    forall i | 0 <= i < |entries| && entries[i].outcome == Copied
      ensures CopiedRow(emojis', files', Deref(cands[i].emojiId), entries[i].copied)
    {
      CopiedRowStays(emojis, files, emojis', files', Deref(cands[i].emojiId), entries[i].copied);
    }
  }

  lemma LeftAloneNext(allowed: set<string>, cands: seq<App>, entries: seq<Entry>, entry: Entry, start: Emojis,
                      startFiles: Files,
                      emojis: Emojis, files: Files, before: set<string>, after: set<string>, readsWork: bool)
    requires |entries| < |cands| && DistinctIds(cands)
    requires LeftAlone(cands, entries, start, startFiles, before, readsWork)
    requires RowsStayDone(start, startFiles, emojis, files)
    requires var app := cands[|entries|]; var plan := PlanFor(allowed, emojis, files, app);
             && app.id !in before && after <= before + {app.id}
             && (entry.outcome == Failed || Fulfils(plan, entry.outcome, true))
             && (plan != Copy ==> after == before && (readsWork ==> entry.outcome != Failed))
    ensures LeftAlone(cands, entries + [entry], start, startFiles, after, readsWork)
  {
    var app := cands[|entries|];
    if Deref(app.emojiId) != "" && Done(start, startFiles, Deref(app.emojiId)) {
      DoneIsNotCopied(allowed, emojis, files, app);
    }
    forall i | 0 <= i < |entries| ensures cands[i].id !in before ==> cands[i].id !in after {
      assert cands[i].id != app.id;
    }
  }

  // ----- the database and the drive -----

  class Site {
    const allowed: set<string>
    /** No other writer. */
    const alone: bool
    /** Reads do not fail. */
    const readsWork: bool
    /** An UPDATE that is carried out is reported. */
    const updatesWork: bool
    var emojis: Emojis
    var files: Files
    /** Bookkeeping: the copies made with their URLs, the URLs a deletion was asked for, and the rows copied for. */
    var copies: Files
    var copyUrls: set<string>
    var removed: set<string>
    var copiedFor: set<string>

    /** No emoji points at a copy whose deletion was asked for. */
    ghost predicate Valid()
      reads this
    {
      && removed <= copyUrls
      && (forall e :: e in emojis ==> emojis[e].originalUrl !in removed)
      && (forall f :: f in copies ==> copies[f].url in copyUrls && (f in files ==> files[f] == copies[f]))
    }

    /** Anything others may do between two calls. They may remove copies, but not change them or point at them. */
    method Others()
      requires Valid()
      modifies this`emojis, this`files
      ensures Valid()
      ensures alone ==> emojis == old(emojis) && files == old(files)
      ensures forall e :: e in emojis && emojis[e].originalUrl in copyUrls ==>
                e in old(emojis) && old(emojis)[e].originalUrl == emojis[e].originalUrl
    {
      if alone {
        return;
      }
      var es: Emojis := *;
      var fs: Files := *;
      if && (forall e :: e in es && es[e].originalUrl in copyUrls ==>
               e in emojis && emojis[e].originalUrl == es[e].originalUrl)
         && (forall f :: f in fs && f in copies ==> fs[f] == copies[f])
      {
        emojis, files := es, fs;
      }
    }

    method FindEmoji(id: string) returns (r: Read<Emoji>)
      ensures readsWork ==> !r.ReadFailed?
      ensures r.Found? ==> id != "" && id in emojis && r.value == emojis[id]
      ensures r.Absent? ==> id == "" || id !in emojis
    {
      if id == "" {
        return Absent;
      }
      var fails: bool := *;
      if fails && !readsWork {
        return ReadFailed;
      }
      r := if id in emojis then Found(emojis[id]) else Absent;
    }

    method FindFile(id: string) returns (r: Read<File>)
      ensures readsWork ==> !r.ReadFailed?
      ensures r.Found? ==> id != "" && id in files && r.value == files[id]
      ensures r.Absent? ==> id == "" || id !in files
    {
      if id == "" {
        return Absent;
      }
      var fails: bool := *;
      if fails && !readsWork {
        return ReadFailed;
      }
      r := if id in files then Found(files[id]) else Absent;
    }

    /** Every row with this URL, none for the empty one. */
    method FindFilesByUrl(url: string) returns (ok: bool, rows: seq<File>)
      ensures readsWork ==> ok
      ensures ok ==> forall r :: r in rows <==> url != "" && exists f :: f in files && files[f] == r && r.url == url
    {
      rows := [];
      if url == "" {
        return true, [];
      }
      var fails: bool := *;
      if fails && !readsWork {
        return false, [];
      }
      var todo := files.Keys;
      while todo != {}
        invariant todo <= files.Keys
        invariant forall r :: r in rows <==> exists f :: f in files.Keys - todo && files[f] == r && r.url == url
        decreases |todo|
      {
        var k :| k in todo;
        ghost var before, seen := rows, todo;
        todo := todo - {k};
        assert files.Keys - todo == (files.Keys - seen) + {k};
        if files[k].url == url {
          rows := rows + [files[k]];
        }
        forall r ensures r in rows <==> exists f :: f in files.Keys - todo && files[f] == r && r.url == url {
          assert r in rows <==> r in before || (r == files[k] && r.url == url);
          if r in rows && r !in before {
            assert k in files.Keys - todo && files[k] == r;
          }
        }
      }
      ok := true;
    }

    /** anySystemOwned. */
    method AnySystemOwned(rows: seq<File>) returns (any: bool)
      ensures any <==> exists r :: r in rows && SystemOwned(r)
    {
      for i := 0 to |rows|
        invariant forall j :: 0 <= j < i ==> !SystemOwned(rows[j])
      {
        if SystemOwned(rows[i]) {
          assert rows[i] in rows;
          return true;
        }
      }
      any := false;
    }

    /**
      A name that is not new counts as a failed copy. An upload may leave its file behind and still report an error.
      */
    method CopyToSystemFile(app: string) returns (r: CopyResult)
      requires Valid()
      modifies this`files, this`copies, this`copyUrls, this`copiedFor
      ensures Valid()
      ensures copyUrls >= old(copyUrls) && old(copiedFor) <= copiedFor <= old(copiedFor) + {app}
      ensures forall f :: f in old(files) ==> f in files && files[f] == old(files)[f]
      ensures forall f :: f in old(copies) ==> f in copies && copies[f] == old(copies)[f]
      ensures r.Made? ==>
                r.id != "" && r.id !in old(files) && SystemOwned(r.file) && r.id in files && files[r.id] == r.file
                          && r.id in copies && copies[r.id] == r.file && r.file.url !in old(copyUrls)
                          && forall e :: e in emojis ==> emojis[e].originalUrl != r.file.url
    {
      var outcome: nat := *;
      var id: string := *;
      var f: File := *;
      if id == "" || id in files || id in copies || !SystemOwned(f) || f.url in copyUrls ||
         exists e :: e in emojis && emojis[e].originalUrl == f.url
      {
        return CopyFailed;
      }
      if outcome == 0 {
        return NotInStorage;
      } else if outcome == 1 {
        return TooLarge;
      } else if outcome == 2 {
        return NothingReturned;
      } else if outcome == 3 {
        return CopyFailed;
      }
      files := files[id := f];
      copies := copies[id := f];
      copyUrls := copyUrls + {f.url};
      copiedFor := copiedFor + {app};
      r := if outcome == 4 then CopyFailed else Made(id, f);
    }

    /** The conditional UPDATE. An error says nothing about its effect. */
    method UpdateEmoji(id: string, url: string, e: Emoji) returns (r: Update)
      modifies this`emojis
      ensures emojis == old(emojis)
              || (id in old(emojis) && old(emojis)[id].originalUrl == url && emojis == old(emojis)[id := e])
      ensures r.Updated? && r.rows == 0 ==> emojis == old(emojis) && (id !in emojis || emojis[id].originalUrl != url)
      ensures r.Updated? && r.rows != 0 ==>
                id in old(emojis) && old(emojis)[id].originalUrl == url && emojis == old(emojis)[id := e]
      ensures updatesWork ==> r.Updated?
    {
      var reported: bool := *;
      reported := reported || updatesWork;
      var applied: bool := *;
      var matches := id in emojis && emojis[id].originalUrl == url;
      if matches && (applied || reported) {
        emojis := emojis[id := e];
      }
      r := if reported then Updated(if matches then 1 else 0) else UpdateFailed;
    }

    /** DeleteSystemFile: only system-owned rows. It may fail with or without having removed the row. */
    method DeleteSystemFile(id: string) returns (ok: bool)
      modifies this`files, this`removed
      ensures removed == old(removed) || (id in old(files) && SystemOwned(old(files)[id]) &&
                                          removed == old(removed) + {old(files)[id].url})
      ensures forall f :: f in files ==> f in old(files) && files[f] == old(files)[f]
      ensures forall f :: f in old(files) && (f != id || !SystemOwned(old(files)[f])) ==> f in files
    {
      if id == "" {
        return true;
      }
      var fails: bool := *;
      if fails {
        return false;
      }
      if id !in files {
        return true;
      }
      if !SystemOwned(files[id]) {
        return false;
      }
      removed := removed + {files[id].url};
      var applied: bool := *;
      if applied {
        files := files - {id};
      }
      ok := *;
    }

    /** deleteCopy, on a copy no emoji points at. */
    method DeleteCopy(id: string)
      requires Valid() && id in copies && forall e :: e in emojis ==> emojis[e].originalUrl != copies[id].url
      modifies this`files, this`removed
      ensures Valid()
      ensures forall f :: f in old(files) && f != id ==> f in files && files[f] == old(files)[f]
    {
      if id == "" {
        return;
      }
      var ok := DeleteSystemFile(id);
    }

    /** finishFailedUpdate: the copy goes only after a read that shows the row elsewhere. */
    method FinishFailedUpdate(app: App, id: string, f: File) returns (entry: Entry)
      requires Valid() && id in copies && copies[id] == f && Deref(app.emojiId) != ""
      requires forall e :: e in emojis && emojis[e].originalUrl == f.url ==> e == Deref(app.emojiId)
      modifies this`emojis, this`files, this`removed
      ensures Valid()
      ensures (alone ==> emojis == old(emojis)) && entry.outcome in {Failed, Copied}
      ensures alone ==> forall g :: g in old(files) && g != id ==> g in files && files[g] == old(files)[g]
      ensures alone && id in old(files) && Deref(app.emojiId) in emojis ==>
                emojis[Deref(app.emojiId)].originalUrl == f.url ==> id in files
      ensures entry.app == app.id
      ensures entry.outcome == Copied ==> entry.copied == id
      ensures alone && entry.outcome == Copied ==>
                Deref(app.emojiId) in emojis && emojis[Deref(app.emojiId)].originalUrl == f.url
      ensures alone && readsWork && entry.outcome == Failed ==>
                !(Deref(app.emojiId) in emojis && emojis[Deref(app.emojiId)].originalUrl == f.url)
    {
      Others();
      var landed := FindEmoji(Deref(app.emojiId));
      if landed.ReadFailed? {
        return Entry(app.id, Failed, "");
      }
      if landed.Found? && landed.value.originalUrl == f.url {
        return Entry(app.id, Copied, id);
      }
      Others();
      DeleteCopy(id);
      entry := Entry(app.id, Failed, "");
    }

    /** Point the emoji at the copy, unless it has been changed since it was read. */
    method TakeIntoUse(app: App, emoji: Emoji, id: string, f: File, now: int) returns (entry: Entry)
      requires Valid() && id in copies && copies[id] == f && Deref(app.emojiId) != "" && SystemOwned(f)
      requires forall e :: e in emojis ==> emojis[e].originalUrl != f.url
      requires f.url !in removed && (alone ==> id in files)
      modifies this`emojis, this`files, this`removed
      ensures Valid() && entry.app == app.id && entry.outcome in {Copied, Failed}
      ensures alone ==> forall g :: g in old(files) && g != id ==> g in files && files[g] == old(files)[g]
      ensures alone && Deref(app.emojiId) in old(emojis) && old(emojis)[Deref(app.emojiId)] == emoji ==>
                InUse(entry, old(emojis), emojis, files, Deref(app.emojiId), id, f, now)
                && (readsWork && entry.outcome == Failed ==> emojis == old(emojis) && !updatesWork)
      ensures entry.outcome == Copied ==> entry.copied == id
    {
      Others();
      var r := UpdateEmoji(Deref(app.emojiId), emoji.originalUrl, Repointed(emoji, f, now));
      if r.UpdateFailed? {
        entry := FinishFailedUpdate(app, id, f);
        return;
      }
      if r.rows == 0 {
        Others();
        DeleteCopy(id);
        return Entry(app.id, Failed, "");
      }
      assert emojis[Deref(app.emojiId)].originalUrl == f.url;
      entry := Entry(app.id, Copied, id);
    }

    /** From the copy on: take it into use, or put it away again. */
    method Repair(app: App, emoji: Emoji, now: int) returns (entry: Entry, ghost made: CopyResult)
      requires Valid() && Deref(app.emojiId) != ""
      modifies this`emojis, this`files, this`copies, this`copyUrls, this`copiedFor, this`removed
      ensures Valid() && copyUrls >= old(copyUrls) && old(copiedFor) <= copiedFor <= old(copiedFor) + {app.id}
      ensures entry.app == app.id && entry.outcome in {Copied, Failed, Unrepairable}
      ensures alone ==> forall f :: f in old(files) ==> f in files && files[f] == old(files)[f]
      ensures alone && Deref(app.emojiId) in old(emojis) && old(emojis)[Deref(app.emojiId)] == emoji ==>
                RepairDone(entry, old(emojis), emojis, old(files), files, Deref(app.emojiId), now)
                && (readsWork && entry.outcome == Failed ==> emojis == old(emojis))
                && (readsWork && updatesWork && made.Made? && Usable(allowed, made.file) ==> entry.outcome == Copied)
      ensures CopyComesTo(allowed, made, entry.outcome)
      ensures entry.outcome == Copied ==> made.Made? && entry.copied == made.id
    {
      ghost var e := Deref(app.emojiId);
      Others();
      var copy := CopyToSystemFile(app.id);
      made := copy;
      if copy.NotInStorage? || copy.TooLarge? {
        entry := Entry(app.id, Unrepairable, "");
        return;
      }
      if !copy.Made? {
        entry := Entry(app.id, Failed, "");
        return;
      }
      var id, f := copy.id, copy.file;
      if f.mime !in allowed || !Fits(f.url) || !Fits(PreferWebpublicUrl(f)) {
        Others();
        DeleteCopy(id);
        entry := Entry(app.id, Unrepairable, "");
        return;
      }
      entry := TakeIntoUse(app, emoji, id, f, now);
    }

    method PointsAtOwned(url: string) returns (ok: bool, owned: bool)
      ensures readsWork ==> ok
      ensures ok ==> owned == OwnedAt(files, url)
    {
      var current;
      ok, current := FindFilesByUrl(url);
      owned := AnySystemOwned(current);
    }

    /** processEmojiSystemFile. */
    method Process(app: App, apply: bool, now: int) returns (entry: Entry, ghost made: Option<CopyResult>)
      requires Valid()
      modifies this`emojis, this`files, this`copies, this`copyUrls, this`copiedFor, this`removed
      ensures Valid() && old(copiedFor) <= copiedFor <= old(copiedFor) + {app.id} && entry.app == app.id
      ensures !apply ==> copies == old(copies) && removed == old(removed) && copiedFor == old(copiedFor)
      ensures alone ==>
                entry.outcome == Failed || Fulfils(PlanFor(allowed, old(emojis), old(files), app), entry.outcome, apply)
      ensures alone && (!apply || PlanFor(allowed, old(emojis), old(files), app) != Copy) ==>
                copiedFor == old(copiedFor) && (readsWork ==> entry.outcome != Failed)
      ensures alone ==> RowStep(allowed, app, apply, now, entry, old(emojis), old(files), emojis, files)
      // a copy is made exactly where the rows call for one, and its fate decides
      ensures alone && readsWork ==> (made.Some? <==> apply && PlanFor(allowed, old(emojis), old(files), app) == Copy)
      ensures made.Some? ==> CopyComesTo(allowed, made.value, entry.outcome)
      ensures alone && readsWork && updatesWork && made.Some? && made.value.Made? ==>
                Usable(allowed, made.value.file) ==>
                entry.outcome == Copied && entry.copied == made.value.id
    {
      made := None;
      var done, emoji;
      done, entry, emoji := Examine(app, apply);
      if !done {
        ghost var copy;
        entry, copy := Repair(app, emoji, now);
        made := Some(copy);
      }
    }

    /** The part before anything is written: an entry, or the emoji to repair. */
    method Examine(app: App, apply: bool) returns (done: bool, entry: Entry, row: Emoji)
      requires Valid()
      modifies this`emojis, this`files
      ensures Valid() && entry.app == app.id
      ensures alone ==> emojis == old(emojis) && files == old(files)
      ensures alone && done ==>
                entry.outcome == Failed || Fulfils(PlanFor(allowed, emojis, files, app), entry.outcome, false)
      ensures alone && done && readsWork ==> entry.outcome != Failed
      ensures alone && done && PlanFor(allowed, emojis, files, app) == Copy && entry.outcome == Copied ==> !apply
      ensures !done ==> apply && Deref(app.emojiId) != ""
      ensures alone && done && readsWork && apply ==> PlanFor(allowed, emojis, files, app) != Copy
      ensures alone && !done ==> PlanFor(allowed, emojis, files, app) == Copy && row == emojis[Deref(app.emojiId)]
    {
      done, entry, row := true, Entry(app.id, Failed, ""), Emoji("", "", None, 0);
      Others();
      var emoji := FindEmoji(Deref(app.emojiId));
      if emoji.ReadFailed? {
        return;
      }
      if emoji.Absent? {
        entry := Entry(app.id, Skipped, "");
        return;
      }
      Others();
      var ok, owned := PointsAtOwned(emoji.value.originalUrl);
      if !ok {
        return;
      }
      if owned {
        entry := Entry(app.id, Already, "");
        return;
      }
      Others();
      var src := FindFile(Deref(app.fileId));
      if src.ReadFailed? {
        return;
      }
      if src.Absent? {
        entry := Entry(app.id, Unrepairable, "");
      } else if emoji.value.originalUrl != src.value.url {
        entry := Entry(app.id, NeedsReview, "");
      } else if src.value.mime !in allowed {
        entry := Entry(app.id, Unrepairable, "");
      } else if !HasBody(src.value) {
        entry := Entry(app.id, Unrepairable, "");
      } else if !apply {
        entry := Entry(app.id, Copied, "");
      } else {
        done, row := false, emoji.value;
      }
    }

    /** The state of a run without other writers after some rows. */
    ghost predicate RunSoFar(cands: seq<App>, entries: seq<Entry>, apply: bool, start: Emojis, startFiles: Files)
      reads this
    {
      && FilesKept(startFiles, files) && RowsStayDone(start, startFiles, emojis, files)
      && (!apply ==> emojis == start && files == startFiles)
      && (apply ==> CopiedRows(cands, entries, emojis, files))
      && (apply ==> LeftAlone(cands, entries, start, startFiles, copiedFor, readsWork))
    }

    method NextRow(cands: seq<App>, ghost entries: seq<Entry>, apply: bool, now: int, i: nat, ghost start: Emojis,
                   ghost startFiles: Files) returns (entry: Entry)
      requires Valid() && i == |entries| < |cands| && DistinctIds(cands)
      requires forall j :: i <= j < |cands| ==> cands[j].id !in copiedFor
      requires alone ==> RunSoFar(cands, entries, apply, start, startFiles)
      modifies this`emojis, this`files, this`copies, this`copyUrls, this`copiedFor, this`removed
      ensures Valid() && entry.app == cands[i].id
      ensures forall j :: i < j < |cands| ==> cands[j].id !in copiedFor
      ensures !apply ==> copies == old(copies) && removed == old(removed) && copiedFor == old(copiedFor)
      ensures alone ==> RunSoFar(cands, entries + [entry], apply, start, startFiles)
    {
      ghost var es, fs, done := emojis, files, copiedFor;
      ghost var made;
      entry, made := Process(cands[i], apply, now);
      if alone {
        StepKeepsDone(allowed, cands[i], apply, now, entry, es, fs, emojis, files);
        if apply {
          if entry.outcome == Copied {
            RepairedIsCopied(entry, es, emojis, fs, files, Deref(cands[i].emojiId), now);
          }
          CopiedRowsNext(cands, entries, entry, es, fs, emojis, files);
          LeftAloneNext(allowed, cands, entries, entry, start, startFiles, es, fs, done, copiedFor, readsWork);
        }
      }
    }

    /**
      BackfillEmojiSystemFiles. It stops early when cancelled, and before the first row when the list cannot be read.
      */
    method Backfill(apps: seq<App>, apply: bool, limit: int, now: int) returns (r: Report, ok: bool)
      requires Valid() && DistinctIds(apps)
      modifies this`emojis, this`files, this`copies, this`copyUrls, this`copiedFor, this`removed
      ensures Valid() && Tallied(r) && |r.entries| <= |Candidates(apps, limit)|
      ensures forall i :: 0 <= i < |r.entries| ==> r.entries[i].app == Candidates(apps, limit)[i].id
      ensures ok ==> |r.entries| == |Candidates(apps, limit)|
      ensures !apply ==> copies == old(copies) && removed == old(removed) && copiedFor == {}
      ensures !apply && alone ==> emojis == old(emojis) && files == old(files)
      ensures alone ==> FilesKept(old(files), files) && RowsStayDone(old(emojis), old(files), emojis, files)
      ensures alone && apply ==> CopiedRows(Candidates(apps, limit), r.entries, emojis, files)
      ensures alone && apply ==>
                LeftAlone(Candidates(apps, limit), r.entries, old(emojis), old(files), copiedFor, readsWork)
    {
      r := Report(0, 0, 0, 0, 0, 0, 0, []);
      copiedFor := {};
      var fails: bool := *;
      if fails {
        return r, false;
      }
      var cands := Candidates(apps, limit);
      CandidatesDistinct(apps, limit);
      RunStarts(cands, emojis, files);
      for i := 0 to |cands|
        invariant Valid() && Tallied(r) && |r.entries| == i
        invariant forall j :: 0 <= j < i ==> r.entries[j].app == cands[j].id
        invariant forall j :: i <= j < |cands| ==> cands[j].id !in copiedFor
        invariant !apply ==> copies == old(copies) && removed == old(removed) && copiedFor == {}
        invariant alone ==> RunSoFar(cands, r.entries, apply, old(emojis), old(files))
      {
        var cancelled: bool := *;
        if cancelled {
          return r, false;
        }
        var entry := NextRow(cands, r.entries, apply, now, i, old(emojis), old(files));
        CountedTallied(r, entry);
        r := Counted(r, entry);
      }
      ok := true;
    }

    /**
      A second applying run leaves every row the first one copied alone and makes no copy
      for it, whatever reads fail in either run. It calls such a row `already` or, when a
      read failed, `failed`; if its URL is empty it is neither found repaired nor copied.
      */
    method RunTwice(apps: seq<App>, limit: int, now: int, later: int) returns (first: Report, second: Report)
      requires Valid() && DistinctIds(apps) && alone
      modifies this`emojis, this`files, this`copies, this`copyUrls, this`copiedFor, this`removed
      ensures Valid() && Tallied(first) && Tallied(second)
      ensures var cands := Candidates(apps, limit);
              && |first.entries| <= |cands| && |second.entries| <= |cands|
              && forall i :: 0 <= i < |first.entries| && i < |second.entries| && first.entries[i].outcome == Copied ==>
                   CopiedRow(emojis, files, Deref(cands[i].emojiId), first.entries[i].copied) &&
                   cands[i].id !in copiedFor &&
                   SettledOutcome(second.entries[i].outcome, files[first.entries[i].copied].url, readsWork)
    {
      var ok;
      first, ok := Backfill(apps, true, limit, now);
      ghost var cands, es, fs := Candidates(apps, limit), emojis, files;
      second, ok := Backfill(apps, true, limit, later);
      forall i | 0 <= i < |first.entries| && first.entries[i].outcome == Copied
        ensures CopiedRow(emojis, files, Deref(cands[i].emojiId), first.entries[i].copied)
      {
        CopiedRowStays(es, fs, emojis, files, Deref(cands[i].emojiId), first.entries[i].copied);
      }
    }
  }
}
