/**
  The walk over a Vite manifest (`detectEntry` in `internal/frontendutil/frontendutil.go`). Imports may form cycles and
  may name chunks the manifest does not have.
  */
module Manifest {
  import opened Basics

  datatype Chunk = Chunk(file: string, css: seq<string>, imports: seq<string>)

  type Chunks = map<string, Chunk>

  datatype EntryInfo = EntryInfo(script: string, css: seq<string>, modulePreloads: seq<string>)

  /** What the walk has met: chunk ids, and style sheets in order. */
  datatype Met = Met(seen: set<string>, css: seq<string>)

  /** Every id the walk can come across. */
  ghost predicate Closed(m: Chunks, u: set<string>) {
    forall id, i :: id in m && 0 <= i < |m[id].imports| ==> m[id].imports[i] in u
  }

  ghost predicate Within(ids: seq<string>, u: set<string>) {
    forall i :: 0 <= i < |ids| ==> ids[i] in u
  }

  // ----- the walk as a function -----

  function WithCss(css: seq<string>, files: seq<string>): seq<string> {
    if files == [] then css
    else
      var before := WithCss(css, files[..|files| - 1]);
      var f := files[|files| - 1];
      if f in before then before else before + [f]
  }

  /** Depth first, a chunk's own style sheets before those of its imports, every id once. */
  ghost function Walked(m: Chunks, u: set<string>, ids: seq<string>, met: Met): (r: Met)
    requires Closed(m, u) && Within(ids, u)
    ensures met.seen <= r.seen
    decreases |u - met.seen|, |ids|
  {
    if ids == [] then met
    else
      var before := Walked(m, u, ids[..|ids| - 1], met);
      SubsetSize(u - before.seen, u - met.seen);
      Visited(m, u, ids[|ids| - 1], before)
  }

  ghost function Visited(m: Chunks, u: set<string>, id: string, met: Met): (r: Met)
    requires Closed(m, u) && id in u
    ensures met.seen <= r.seen && id in r.seen
    decreases |u - met.seen|, 0
  {
    if id in met.seen then met
    else
      var seen := met.seen + {id};
      assert id in u - met.seen && id !in u - seen;
      SubsetSize(u - seen, u - met.seen);
      if id !in m then Met(seen, met.css) else Walked(m, u, m[id].imports, Met(seen, WithCss(met.css, m[id].css)))
  }

  // ----- reachability -----

  /** A chain of imports: each id but the first is imported by the chunk before it. */
  ghost predicate Chain(m: Chunks, p: seq<string>) {
    forall i :: 0 <= i < |p| - 1 ==> p[i] in m && p[i + 1] in m[p[i]].imports
  }

  ghost predicate Reachable(m: Chunks, ids: seq<string>, x: string) {
    exists p :: IsPath(m, ids, p, x)
  }

  ghost predicate IsPath(m: Chunks, ids: seq<string>, p: seq<string>, x: string) {
    p != [] && p[0] in ids && p[|p| - 1] == x && Chain(m, p)
  }

  lemma ReachableStart(m: Chunks, ids: seq<string>, x: string)
    requires x in ids
    ensures Reachable(m, ids, x)
  {
    assert IsPath(m, ids, [x], x);
  }

  lemma ReachableNext(m: Chunks, ids: seq<string>, x: string, y: string)
    requires Reachable(m, ids, x) && x in m && y in m[x].imports
    ensures Reachable(m, ids, y)
  {
    var p :| IsPath(m, ids, p, x);
    var q := p + [y];
    assert forall i :: 0 <= i < |p| ==> q[i] == p[i];
    assert IsPath(m, ids, q, y);
  }

  /** Closed under imports, among the chunks that exist. */
  ghost predicate ImportClosed(m: Chunks, s: set<string>) {
    forall x :: x in s && x in m ==> Within(m[x].imports, s)
  }

  lemma {:induction false} ClosedHasPath(m: Chunks, s: set<string>, p: seq<string>)
    requires ImportClosed(m, s) && p != [] && p[0] in s && Chain(m, p)
    ensures p[|p| - 1] in s
    decreases |p|
  {
    if |p| > 1 {
      assert p[0] in m && p[1] in m[p[0]].imports;
      ClosedHasPath(m, s, p[1..]);
    }
  }

  // ----- what the walk meets -----

  /** What was added since `met` is reachable from `root`; of what was added, all imports are seen too. */
  ghost predicate Progress(m: Chunks, root: seq<string>, met: Met, r: Met) {
    && met.seen <= r.seen
    && (forall x :: x in r.seen - met.seen ==> Reachable(m, root, x))
    && (forall x :: x in r.seen - met.seen && x in m ==> Within(m[x].imports, r.seen))
  }

  lemma ProgressTrans(m: Chunks, root: seq<string>, a: Met, b: Met, c: Met)
    requires Progress(m, root, a, b) && Progress(m, root, b, c)
    ensures Progress(m, root, a, c)
  {}

  lemma {:induction false} WalkMeets(m: Chunks, u: set<string>, root: seq<string>, ids: seq<string>, met: Met)
    requires Closed(m, u) && Within(ids, u) && forall x :: x in ids ==> Reachable(m, root, x)
    ensures var r := Walked(m, u, ids, met); Progress(m, root, met, r) && Within(ids, r.seen)
    decreases |u - met.seen|, |ids|
  {
    if ids == [] {
    } else {
      var last := ids[|ids| - 1];
      var before := Walked(m, u, ids[..|ids| - 1], met);
      WalkMeets(m, u, root, ids[..|ids| - 1], met);
      SubsetSize(u - before.seen, u - met.seen);
      assert last in ids;
      VisitMeets(m, u, root, last, before);
      ProgressTrans(m, root, met, before, Visited(m, u, last, before));
    }
  }

  lemma {:induction false} VisitMeets(m: Chunks, u: set<string>, root: seq<string>, id: string, met: Met)
    requires Closed(m, u) && id in u && Reachable(m, root, id)
    ensures Progress(m, root, met, Visited(m, u, id, met))
    decreases |u - met.seen|, 0
  {
    if id !in met.seen && id in m {
      var seen := met.seen + {id};
      assert id in u - met.seen && id !in u - seen;
      SubsetSize(u - seen, u - met.seen);
      forall y | y in m[id].imports ensures Reachable(m, root, y) {
        ReachableNext(m, root, id, y);
      }
      WalkMeets(m, u, root, m[id].imports, Met(seen, WithCss(met.css, m[id].css)));
    }
  }

  /** A walk from nothing meets exactly what can be reached. */
  lemma WalkSeesReachable(m: Chunks, u: set<string>, ids: seq<string>, css: seq<string>, x: string)
    requires Closed(m, u) && Within(ids, u)
    ensures x in Walked(m, u, ids, Met({}, css)).seen <==> Reachable(m, ids, x)
  {
    forall y | y in ids ensures Reachable(m, ids, y) {
      ReachableStart(m, ids, y);
    }
    WalkMeets(m, u, ids, ids, Met({}, css));
    if Reachable(m, ids, x) {
      var p :| IsPath(m, ids, p, x);
      ClosedHasPath(m, Walked(m, u, ids, Met({}, css)).seen, p);
    }
  }

  // ----- the style sheets -----

  ghost predicate NoDuplicates(s: seq<string>) {
    forall i, j :: 0 <= i < j < |s| ==> s[i] != s[j]
  }

  lemma {:induction false} AddCssAdds(css: seq<string>, files: seq<string>)
    ensures var r := WithCss(css, files);
            (forall f :: f in r <==> f in css || f in files) && (NoDuplicates(css) ==> NoDuplicates(r)) && css <= r
  {
    if files == [] {
    } else {
      AddCssAdds(css, files[..|files| - 1]);
      assert files == files[..|files| - 1] + [files[|files| - 1]];
    }
  }

  /** Files are added from the first on, each where it is first met. */
  lemma {:induction false} AddCssFirst(css: seq<string>, f: string, rest: seq<string>)
    ensures WithCss(css, []) == css
    ensures WithCss(css, [f] + rest) == WithCss(if f in css then css else css + [f], rest)
    decreases |rest|
  {
    var files := [f] + rest;
    if rest == [] {
      assert files[..0] == [];
    } else {
      var front, last := rest[..|rest| - 1], rest[|rest| - 1];
      assert files[..|files| - 1] == [f] + front && files[|files| - 1] == last;
      AddCssFirst(css, f, front);
    }
  }

  /** A chunk's own style sheets come before those of the chunks it brings along. */
  lemma OwnCssFirst(m: Chunks, u: set<string>, id: string, met: Met)
    requires Closed(m, u) && id in u && id in m && id !in met.seen
    ensures met.css <= WithCss(met.css, m[id].css) <= Visited(m, u, id, met).css
  {
    var seen := met.seen + {id};
    assert id in u - met.seen && id !in u - seen;
    SubsetSize(u - seen, u - met.seen);
    AddCssAdds(met.css, m[id].css);
    WalkCss(m, u, m[id].imports, Met(seen, WithCss(met.css, m[id].css)));
  }

  /** The style sheets of the chunks met since. */
  ghost predicate CssOf(m: Chunks, met: Met, r: Met) {
    && (forall f :: f in r.css <==> f in met.css || exists x :: x in r.seen - met.seen && x in m && f in m[x].css)
    && (NoDuplicates(met.css) ==> NoDuplicates(r.css)) && met.css <= r.css
  }

  lemma CssTrans(m: Chunks, a: Met, b: Met, c: Met)
    requires CssOf(m, a, b) && CssOf(m, b, c) && a.seen <= b.seen <= c.seen
    ensures CssOf(m, a, c)
  {
    forall f | exists x :: x in c.seen - a.seen && x in m && f in m[x].css ensures f in c.css {
      var x :| x in c.seen - a.seen && x in m && f in m[x].css;
      if x in b.seen {
        assert x in b.seen - a.seen && f in b.css;
      } else {
        assert x in c.seen - b.seen;
      }
    }
  }

  lemma {:induction false} WalkCss(m: Chunks, u: set<string>, ids: seq<string>, met: Met)
    requires Closed(m, u) && Within(ids, u)
    ensures CssOf(m, met, Walked(m, u, ids, met))
    decreases |u - met.seen|, |ids|
  {
    if ids == [] {
    } else {
      var before := Walked(m, u, ids[..|ids| - 1], met);
      WalkCss(m, u, ids[..|ids| - 1], met);
      SubsetSize(u - before.seen, u - met.seen);
      VisitCss(m, u, ids[|ids| - 1], before);
      CssTrans(m, met, before, Visited(m, u, ids[|ids| - 1], before));
    }
  }

  lemma {:induction false} VisitCss(m: Chunks, u: set<string>, id: string, met: Met)
    requires Closed(m, u) && id in u
    ensures CssOf(m, met, Visited(m, u, id, met))
    decreases |u - met.seen|, 0
  {
    if id !in met.seen {
      var seen := met.seen + {id};
      assert id in u - met.seen && id !in u - seen;
      SubsetSize(u - seen, u - met.seen);
      if id in m {
        var next := Met(seen, WithCss(met.css, m[id].css));
        AddCssAdds(met.css, m[id].css);
        assert next.seen - met.seen == {id};
        assert CssOf(m, met, next);
        WalkCss(m, u, m[id].imports, next);
        CssTrans(m, met, next, Walked(m, u, m[id].imports, next));
      }
    }
  }

  // ----- module preloads -----

  /** The direct imports that exist and that no earlier import leads to. */
  ghost function PreloadIds(m: Chunks, ids: seq<string>): seq<string> {
    if ids == [] then []
    else
      var init, last := ids[..|ids| - 1], ids[|ids| - 1];
      PreloadIds(m, init) + (if last in m && !Reachable(m, init, last) then [last] else [])
  }

  function Files(m: Chunks, ids: seq<string>): seq<string> {
    seq(|ids|, i requires 0 <= i < |ids| => if ids[i] in m then m[ids[i]].file else "")
  }

  /** Direct imports of the entry, each at most once, and none that an earlier one brings along. */
  lemma {:induction false} PreloadsExact(m: Chunks, ids: seq<string>, x: string)
    ensures NoDuplicates(PreloadIds(m, ids))
    ensures x in PreloadIds(m, ids) <==>
              x in m && exists i :: 0 <= i < |ids| && ids[i] == x && !Reachable(m, ids[..i], x)
  {
    if ids == [] {
    } else {
      var init, last := ids[..|ids| - 1], ids[|ids| - 1];
      PreloadsExact(m, init, x);
      forall i | 0 <= i < |init| ensures init[..i] == ids[..i] {}
      if last in PreloadIds(m, init) {
        PreloadsExact(m, init, last);
        ReachableStart(m, init, last);
      }
      if x in m && exists i :: 0 <= i < |ids| && ids[i] == x && !Reachable(m, ids[..i], x) {
        var i :| 0 <= i < |ids| && ids[i] == x && !Reachable(m, ids[..i], x);
        assert i < |init| ==> init[i] == x && !Reachable(m, init[..i], x);
      }
      if x in PreloadIds(m, init) {
        var i :| 0 <= i < |init| && init[i] == x && !Reachable(m, init[..i], x);
        assert ids[i] == x && !Reachable(m, ids[..i], x);
      }
    }
  }

  /** A direct import that an earlier import also imports is not preloaded. */
  lemma SharedImportIsNotPreloaded(a: string, b: string)
    requires a != b
    ensures var m := map[a := Chunk("a.js", [], [b]), b := Chunk("b.js", [], [])];
            PreloadIds(m, [a, b]) == [a]
  {
    var m := map[a := Chunk("a.js", [], [b]), b := Chunk("b.js", [], [])];
    assert [a, b][..1] == [a] && [a][..0] == [];
    ReachableStart(m, [a], a);
    ReachableNext(m, [a], a, b);
    assert !Reachable(m, [], a);
    assert PreloadIds(m, [a]) == [a];
  }

  // ----- detectEntry -----

  class Walker {
    const manifest: Chunks
    var seenChunks: set<string>
    var seenCss: set<string>
    var cssFiles: seq<string>
    var modulePreloads: seq<string>

    ghost predicate Valid()
      reads this
    {
      forall f :: f in seenCss <==> f in cssFiles
    }

    constructor (manifest: Chunks)
      ensures Valid() && this.manifest == manifest && seenChunks == {} && cssFiles == [] && modulePreloads == []
    {
      this.manifest, seenChunks, seenCss, cssFiles, modulePreloads := manifest, {}, {}, [], [];
    }

    method AddCss(files: seq<string>)
      requires Valid()
      modifies this`seenCss, this`cssFiles
      ensures Valid() && cssFiles == WithCss(old(cssFiles), files)
    {
      for i := 0 to |files|
        invariant Valid() && cssFiles == WithCss(old(cssFiles), files[..i])
      {
        assert files[..i + 1][..i] == files[..i];
        if files[i] !in seenCss {
          seenCss := seenCss + {files[i]};
          cssFiles := cssFiles + [files[i]];
        }
      }
      assert files[..|files|] == files;
    }

    /** One turn of the walk's loop, the preload aside: whether a chunk was met that exists. */
    method Visit(ghost u: set<string>, id: string) returns (found: bool)
      requires Valid() && Closed(manifest, u) && id in u
      modifies this
      ensures Valid() && modulePreloads == old(modulePreloads)
      ensures Met(seenChunks, cssFiles) == Visited(manifest, u, id, old(Met(seenChunks, cssFiles)))
      ensures found == (id !in old(seenChunks) && id in manifest)
      decreases |u - seenChunks|, 0
    {
      if id in seenChunks {
        return false;
      }
      ghost var before := seenChunks;
      seenChunks := seenChunks + {id};
      assert id in u - before && id !in u - seenChunks;
      SubsetSize(u - seenChunks, u - before);
      if id !in manifest {
        return false;
      }
      AddCss(manifest[id].css);
      Walk(u, manifest[id].imports, true);
      found := true;
    }

    method Walk(ghost u: set<string>, imports: seq<string>, recursive: bool)
      requires Valid() && Closed(manifest, u) && Within(imports, u) && (!recursive ==> seenChunks == {})
      modifies this
      ensures Valid()
      ensures Met(seenChunks, cssFiles) == Walked(manifest, u, imports, old(Met(seenChunks, cssFiles)))
      ensures recursive ==> modulePreloads == old(modulePreloads)
      ensures !recursive ==> modulePreloads == old(modulePreloads) + Files(manifest, PreloadIds(manifest, imports))
      decreases |u - seenChunks|, 1
    {
      ghost var start := Met(seenChunks, cssFiles);
      assert !recursive ==> PreloadIds(manifest, imports[..0]) == [];
      for i := 0 to |imports|
        invariant Valid() && start.seen <= seenChunks
        invariant Met(seenChunks, cssFiles) == Walked(manifest, u, imports[..i], start)
        invariant recursive ==> modulePreloads == old(modulePreloads)
        invariant !recursive ==>
                    modulePreloads == old(modulePreloads) + Files(manifest, PreloadIds(manifest, imports[..i]))
      {
        SubsetSize(u - seenChunks, u - start.seen);
        ghost var ids := imports[..i + 1];
        assert ids[..|ids| - 1] == imports[..i] && ids[|ids| - 1] == imports[i];
        var found := Visit(u, imports[i]);
        if !recursive {
          WalkSeesReachable(manifest, u, imports[..i], start.css, imports[i]);
          if found {
            modulePreloads := modulePreloads + [manifest[imports[i]].file];
          }
          NextPreload(manifest, ids, found);
        }
      }
      assert imports[..|imports|] == imports;
    }
  }

  lemma NextPreload(m: Chunks, ids: seq<string>, found: bool)
    requires ids != []
    requires var init, last := ids[..|ids| - 1], ids[|ids| - 1]; found == (last in m && !Reachable(m, init, last))
    ensures Files(m, PreloadIds(m, ids)) ==
            Files(m, PreloadIds(m, ids[..|ids| - 1])) + if found then [m[ids[|ids| - 1]].file] else []
  {}

  function AllIds(m: Chunks, ids: seq<string>): (u: set<string>)
    ensures Closed(m, u) && Within(ids, u)
  {
    var u := (set id, x | id in m && x in m[id].imports :: x) + set x | x in ids;
    assert forall id, x :: id in m && x in m[id].imports ==> x in u;
    assert forall id, i :: id in m && 0 <= i < |m[id].imports| ==> m[id].imports[i] in m[id].imports;
    u
  }

  /** The entry, its style sheets and those of every chunk it can reach, each once, and its preloads. */
  method DetectEntry(manifest: Option<Chunks>, entryKey: string) returns (info: EntryInfo)
    ensures manifest.None? || entryKey !in manifest.value ==> info == EntryInfo("", [], [])
    ensures manifest.Some? && entryKey in manifest.value ==>
              var m := manifest.value; var entry := m[entryKey];
              && info.script == entry.file
              && NoDuplicates(info.css) && WithCss([], entry.css) <= info.css
              && (forall f :: f in info.css <==>
                    f in entry.css || exists x :: x in m && f in m[x].css && Reachable(m, entry.imports, x))
              && info.modulePreloads == Files(m, PreloadIds(m, entry.imports))
    ensures manifest.Some? && entryKey in manifest.value ==>
              var m := manifest.value; var entry := m[entryKey]; var u := AllIds(m, entry.imports);
              info.css == Walked(m, u, entry.imports, Met({}, WithCss([], entry.css))).css
  {
    if manifest.None? {
      return EntryInfo("", [], []);
    }
    var m := manifest.value;
    if entryKey !in m {
      return EntryInfo("", [], []);
    }
    var entry := m[entryKey];
    var w := new Walker(m);
    w.AddCss(entry.css);
    ghost var u, css := AllIds(m, entry.imports), w.cssFiles;
    w.Walk(u, entry.imports, false);
    WalkedCss(m, u, entry, css);
    info := EntryInfo(entry.file, w.cssFiles, w.modulePreloads);
  }

  lemma WalkedCss(m: Chunks, u: set<string>, entry: Chunk, css: seq<string>)
    requires Closed(m, u) && Within(entry.imports, u) && css == WithCss([], entry.css)
    ensures var r := Walked(m, u, entry.imports, Met({}, css)).css;
            NoDuplicates(r) && css <= r && forall f :: f in r <==>
              f in entry.css || exists x :: x in m && f in m[x].css && Reachable(m, entry.imports, x)
  {
    AddCssAdds([], entry.css);
    var r := Walked(m, u, entry.imports, Met({}, css));
    WalkCss(m, u, entry.imports, Met({}, css));
    forall x ensures x in r.seen <==> Reachable(m, entry.imports, x) {
      WalkSeesReachable(m, u, entry.imports, css, x);
    }
    assert r.seen - {} == r.seen;
  }
}
