/** Image groups as a tree of rows, resolved from paths through a cache, and the image table synced to disk. */
module Groups {
  import opened Models

  datatype Row = Row(id: nat, name: string, parent: Option<nat>, enabled: bool)

  /** Rows in primary-key order; nextID is above every id handed out so far. */
  datatype Table = Table(rows: seq<Row>, nextID: nat)

  /** The first row, in primary-key order, with this name under this parent. */
  function Find(rows: seq<Row>, name: string, parent: Option<nat>): Option<nat> {
    if rows == [] then None
    else if rows[0].name == name && rows[0].parent == parent then Some(rows[0].id)
    else Find(rows[1..], name, parent)
  }

  function Insert(t: Table, name: string, parent: Option<nat>): Table {
    Table(t.rows + [Row(t.nextID, name, parent, true)], t.nextID + 1)
  }

  // ---- Paths ----

  function Split(s: string): (segs: seq<string>)
    ensures segs != []
  {
    if s == "" then [""]
    else if s[0] == '/' then [""] + Split(s[1..])
    else
      var rest := Split(s[1..]);
      [[s[0]] + rest[0]] + rest[1..]
  }

  function Join(segs: seq<string>): string
    decreases |segs|
  {
    if segs == [] then ""
    else if |segs| == 1 then segs[0]
    else Join(segs[..|segs| - 1]) + "/" + segs[|segs| - 1]
  }

  predicate NoSlash(s: string) {
    forall i | 0 <= i < |s| :: s[i] != '/'
  }

  lemma {:induction false} SplitPieces(s: string)
    ensures forall i | 0 <= i < |Split(s)| :: NoSlash(Split(s)[i])
    ensures s != "" && s[0] != '/' <==> Split(s)[0] != ""
    decreases |s|
  {
    if s != "" {
      SplitPieces(s[1..]);
    }
  }

  lemma {:induction false} SplitOfPiece(b: string)
    requires NoSlash(b)
    ensures Split(b) == [b]
    decreases |b|
  {
    if b != "" {
      assert NoSlash(b[1..]);
      SplitOfPiece(b[1..]);
      assert [b[0]] + b[1..] == b;
    }
  }

  lemma {:induction false} SplitLast(a: string, b: string)
    requires NoSlash(b)
    ensures Split(a + "/" + b) == Split(a) + [b]
    decreases |a|
  {
    var s := a + "/" + b;
    if a == "" {
      assert s[1..] == b;
      SplitOfPiece(b);
    } else {
      assert s[1..] == a[1..] + "/" + b;
      SplitLast(a[1..], b);
    }
  }

  lemma {:induction false} SplitOfJoin(segs: seq<string>)
    requires segs != [] && forall i | 0 <= i < |segs| :: NoSlash(segs[i])
    ensures Split(Join(segs)) == segs
    decreases |segs|
  {
    var n := |segs| - 1;
    if n == 0 {
      SplitOfPiece(segs[0]);
    } else {
      SplitOfJoin(segs[..n]);
      SplitLast(Join(segs[..n]), segs[n]);
      assert segs[..n] + [segs[n]] == segs;
    }
  }

  // ---- The tree, without a cache ----

  /** The group a path names, if the tree has it. */
  function Lookup(rows: seq<Row>, parent: Option<nat>, segs: seq<string>): Option<Option<nat>>
    decreases |segs|
  {
    if segs == [] then Some(parent)
    else match Find(rows, segs[0], parent)
      case None => None
      case Some(id) => Lookup(rows, Some(id), segs[1..])
  }

  /** Find or create each segment under the one before it. */
  function Walk(t: Table, parent: Option<nat>, segs: seq<string>): (Table, Option<nat>)
    decreases |segs|
  {
    if segs == [] then (t, parent)
    else match Find(t.rows, segs[0], parent)
      case Some(id) => Walk(t, Some(id), segs[1..])
      case None => Walk(Insert(t, segs[0], parent), Some(t.nextID), segs[1..])
  }

  /** Every cached path maps to the group the tree gives for it. */
  predicate CacheOk(rows: seq<Row>, cache: map<string, nat>) {
    forall p <- cache :: Lookup(rows, None, Split(p)) == Some(Some(cache[p]))
  }

  // ---- The loop, with the cache ----

  datatype Resolved = Resolved(table: Table, cache: map<string, nat>, id: Option<nat>)

  function Extend(built: string, seg: string): string {
    if built == "" then seg else built + "/" + seg
  }

  function ResolveLoop(t: Table, cache: map<string, nat>, parent: Option<nat>, built: string,
                       segs: seq<string>): Resolved
    decreases |segs|
  {
    if segs == [] then Resolved(t, cache, parent)
    else
      var path := Extend(built, segs[0]);
      if path in cache then ResolveLoop(t, cache, Some(cache[path]), path, segs[1..])
      else match Find(t.rows, segs[0], parent)
        case Some(id) => ResolveLoop(t, cache[path := id], Some(id), path, segs[1..])
        case None => ResolveLoop(Insert(t, segs[0], parent), cache[path := t.nextID], Some(t.nextID), path, segs[1..])
  }

  function Resolve(t: Table, cache: map<string, nat>, path: string): Resolved {
    if path in cache then Resolved(t, cache, Some(cache[path]))
    else ResolveLoop(t, cache, None, "", Split(path))
  }

  // ---- Growth ----

  lemma {:induction false} FindAfterAppend(rows: seq<Row>, r: Row, name: string, parent: Option<nat>)
    ensures Find(rows + [r], name, parent) ==
            if Find(rows, name, parent).Some? then Find(rows, name, parent)
            else if r.name == name && r.parent == parent then Some(r.id) else None
    decreases |rows|
  {
    if rows == [] {
      assert ([r])[1..] == [];
    } else {
      assert (rows + [r])[1..] == rows[1..] + [r];
      FindAfterAppend(rows[1..], r, name, parent);
    }
  }

  lemma {:induction false} LookupSurvivesInsert(t: Table, name: string, parent: Option<nat>, start: Option<nat>,
                                                segs: seq<string>)
    requires Lookup(t.rows, start, segs).Some?
    ensures Lookup(Insert(t, name, parent).rows, start, segs) == Lookup(t.rows, start, segs)
    decreases |segs|
  {
    if segs != [] {
      FindAfterAppend(t.rows, Row(t.nextID, name, parent, true), segs[0], start);
      LookupSurvivesInsert(t, name, parent, Find(t.rows, segs[0], start), segs[1..]);
    }
  }

  lemma {:induction false} LookupSplit(rows: seq<Row>, start: Option<nat>, front: seq<string>, seg: string)
    ensures Lookup(rows, start, front + [seg]) ==
            if Lookup(rows, start, front).None? then None
            else match Find(rows, seg, Lookup(rows, start, front).value)
                 case None => None
                 case Some(id) => Some(Some(id))
    decreases |front|
  {
    if front == [] {
      assert front + [seg] == [seg] && [seg][1..] == [];
    } else {
      assert (front + [seg])[1..] == front[1..] + [seg];
      if id :| Find(rows, front[0], start) == Some(id) {
        LookupSplit(rows, Some(id), front[1..], seg);
      }
    }
  }

  /** One segment of the walk: it is there afterwards, under its parent. */
  lemma StepMakesSegment(t: Table, cache: map<string, nat>, done: seq<string>, seg: string, parent: Option<nat>)
    requires Lookup(t.rows, None, done) == Some(parent) && CacheOk(t.rows, cache)
    ensures var found := Find(t.rows, seg, parent);
            var u := if found.Some? then t else Insert(t, seg, parent);
            var id := if found.Some? then found.value else t.nextID;
            Lookup(u.rows, None, done + [seg]) == Some(Some(id)) && CacheOk(u.rows, cache)
  {
    if Find(t.rows, seg, parent).None? {
      var u := Insert(t, seg, parent);
      FindAfterAppend(t.rows, Row(t.nextID, seg, parent, true), seg, parent);
      LookupSurvivesInsert(t, seg, parent, None, done);
      LookupSplit(u.rows, None, done, seg);
      forall p <- cache ensures Lookup(u.rows, None, Split(p)) == Some(Some(cache[p])) {
        LookupSurvivesInsert(t, seg, parent, None, Split(p));
      }
    } else {
      LookupSplit(t.rows, None, done, seg);
    }
  }

  /** The segments of a path that does not start with '/'. */
  predicate Pieces(segs: seq<string>) {
    (forall s <- segs :: NoSlash(s)) && (|segs| > 1 ==> segs[0] != "")
  }

  /** A path found in the cache is where the walk would have gone. */
  lemma HitIsFound(t: Table, cache: map<string, nat>, parent: Option<nat>, done: seq<string>, seg: string)
    requires CacheOk(t.rows, cache) && Lookup(t.rows, None, done) == Some(parent) && Pieces(done + [seg])
    ensures var path := Extend(Join(done), seg);
            && path == Join(done + [seg]) && Split(path) == done + [seg]
            && (path in cache ==> Find(t.rows, seg, parent) == Some(cache[path]))
  {
    var next := done + [seg];
    assert next[0] in next;
    assert done != [] ==> done[0] == next[0];
    JoinGrows(done, seg);
    assert forall i | 0 <= i < |next| :: next[i] in next;
    SplitOfJoin(next);
    LookupSplit(t.rows, None, done, seg);
  }

  /** As long as no path starts with an empty segment, the cache changes nothing but speed, and stays right. */
  lemma {:induction false} LoopIsWalk(t: Table, cache: map<string, nat>, parent: Option<nat>, done: seq<string>,
                                      segs: seq<string>)
    requires CacheOk(t.rows, cache) && Lookup(t.rows, None, done) == Some(parent) && Pieces(done + segs)
    ensures var r := ResolveLoop(t, cache, parent, Join(done), segs);
            && (r.table, r.id) == Walk(t, parent, segs)
            && CacheOk(r.table.rows, r.cache)
            && Lookup(r.table.rows, None, done + segs) == Some(r.id)
    decreases |segs|
  {
    if segs == [] {
      assert done + segs == done;
    } else {
      var seg := segs[0];
      var next := done + [seg];
      assert next + segs[1..] == done + segs;
      FrontPieces(next, segs[1..]);
      HitIsFound(t, cache, parent, done, seg);
      StepMakesSegment(t, cache, done, seg, parent);
      var path := Join(next);
      var found := Find(t.rows, seg, parent);
      if path in cache {
        LoopIsWalk(t, cache, found, next, segs[1..]);
      } else if found.Some? {
        LoopIsWalk(t, cache[path := found.value], found, next, segs[1..]);
      } else {
        LoopIsWalk(Insert(t, seg, parent), cache[path := t.nextID], Some(t.nextID), next, segs[1..]);
      }
    }
  }

  lemma FrontPieces(front: seq<string>, rest: seq<string>)
    requires Pieces(front + rest)
    ensures Pieces(front)
  {
    assert forall s <- front :: s in front + rest;
  }

  lemma JoinGrows(done: seq<string>, seg: string)
    requires done != [] ==> done[0] != ""
    ensures Extend(Join(done), seg) == Join(done + [seg])
  {
    if done != [] {
      assert (done + [seg])[..|done|] == done;
      JoinNotEmpty(done);
    }
  }

  lemma {:induction false} JoinNotEmpty(segs: seq<string>)
    requires segs != [] && segs[0] != ""
    ensures Join(segs) != ""
    decreases |segs|
  {
    if |segs| > 1 {
      JoinNotEmpty(segs[..|segs| - 1]);
    }
  }

  /** A path that starts with '/' is the one kind the cache gets wrong, whatever follows. */
  lemma CacheIsExactIff(path: string)
    ensures (forall t: Table, cache: map<string, nat> | CacheOk(t.rows, cache) :: Exact(t, cache, path))
       <==> !(path != "" && path[0] == '/')
  {
    SplitPieces(path);
    if path != "" && path[0] == '/' {
      LeadingSlash(path);
    } else {
      forall t: Table, cache: map<string, nat> | CacheOk(t.rows, cache) ensures Exact(t, cache, path) {
        if path !in cache {
          assert [] + Split(path) == Split(path);
          LoopIsWalk(t, cache, None, [], Split(path));
        } else {
          WalkKnown(t, None, Split(path));
        }
      }
    }
  }

  /** With this cache, the path gets the group and the tree the walk gives, and the cache stays right. */
  predicate Exact(t: Table, cache: map<string, nat>, path: string) {
    var r := Resolve(t, cache, path);
    && (r.table, r.id) == Walk(t, None, Split(path))
    && CacheOk(r.table.rows, r.cache)
    && Lookup(r.table.rows, None, Split(path)) == Some(r.id)
  }

  lemma {:induction false} WalkKnown(t: Table, parent: Option<nat>, segs: seq<string>)
    requires Lookup(t.rows, parent, segs).Some?
    ensures Walk(t, parent, segs) == (t, Lookup(t.rows, parent, segs).value)
    decreases |segs|
  {
    if segs != [] {
      WalkKnown(t, Find(t.rows, segs[0], parent), segs[1..]);
    }
  }

  /** The loop never forgets a cached path, and under a group it only ever makes subgroups. */
  lemma {:induction false} LoopOnlyAdds(t: Table, cache: map<string, nat>, parent: nat, built: string,
                                        segs: seq<string>, root: string)
    requires Find(t.rows, root, None).None?
    ensures var r := ResolveLoop(t, cache, Some(parent), built, segs);
            && Find(r.table.rows, root, None).None?
            && (forall p <- cache :: p in r.cache && r.cache[p] == cache[p])
    decreases |segs|
  {
    if segs != [] {
      var path := Extend(built, segs[0]);
      var found := Find(t.rows, segs[0], Some(parent));
      if path in cache {
        LoopOnlyAdds(t, cache, cache[path], path, segs[1..], root);
      } else if found.Some? {
        LoopOnlyAdds(t, cache[path := found.value], found.value, path, segs[1..], root);
      } else {
        FindAfterAppend(t.rows, Row(t.nextID, segs[0], Some(parent), true), root, None);
        LoopOnlyAdds(Insert(t, segs[0], Some(parent)), cache[path := t.nextID], t.nextID, path, segs[1..], root);
      }
    }
  }

  lemma {:induction false} WalkGrows(t: Table, parent: Option<nat>, segs: seq<string>)
    ensures t.rows <= Walk(t, parent, segs).0.rows
    decreases |segs|
  {
    if segs != [] {
      match Find(t.rows, segs[0], parent) {
        case Some(id) => WalkGrows(t, Some(id), segs[1..]);
        case None => WalkGrows(Insert(t, segs[0], parent), Some(t.nextID), segs[1..]);
      }
    }
  }

  /** The empty segments after a leading one find themselves in the cache; the first other one is cached as a root. */
  lemma {:induction false} AfterEmpty(t: Table, cache: map<string, nat>, id: nat, segs: seq<string>)
    requires cache == map["" := id] && Find(t.rows, "", Some(id)).None? && id < t.nextID
    requires forall i | 0 <= i < |segs| :: NoSlash(segs[i])
    requires forall n | n != "" :: Find(t.rows, n, None).None?
    requires forall n :: Find(t.rows, n, Some(id)).None?
    ensures var r := ResolveLoop(t, cache, Some(id), "", segs);
            (r.table == t && forall i | 0 <= i < |segs| :: segs[i] == "") || !CacheOk(r.table.rows, r.cache)
    decreases |segs|
  {
    if segs != [] {
      if segs[0] == "" {
        AfterEmpty(t, cache, id, segs[1..]);
      } else {
        var u, s := Insert(t, segs[0], Some(id)), segs[0];
        FindAfterAppend(t.rows, Row(t.nextID, s, Some(id), true), s, None);
        LoopOnlyAdds(u, cache[s := t.nextID], t.nextID, s, segs[1..], s);
        SplitOfPiece(s);
        var r := ResolveLoop(t, cache, Some(id), "", segs);
        assert s in r.cache && Lookup(r.table.rows, None, Split(s)).None?;
      }
    }
  }

  lemma LeadingSlash(path: string)
    requires path != "" && path[0] == '/'
    ensures exists t: Table, cache: map<string, nat> | CacheOk(t.rows, cache) :: !Exact(t, cache, path)
  {
    var t, cache: map<string, nat> := Table([], 0), map[];
    var segs := Split(path);
    var u := Insert(t, "", None);
    SplitPieces(path);
    assert u.rows[1..] == [];
    assert Find(t.rows, "", None).None?;
    AfterEmpty(u, map["" := 0], 0, segs[1..]);
    assert CacheOk(t.rows, cache);
    var r := Resolve(t, cache, path);
    assert r == ResolveLoop(u, map["" := 0], Some(0), "", segs[1..]);
    SlashHasMore(path);
    var v := Insert(u, segs[1], Some(0));
    assert Find(u.rows, segs[1], Some(0)).None?;
    WalkGrows(v, Some(1), segs[2..]);
    assert segs[1..][1..] == segs[2..];
    assert Walk(t, None, segs) == Walk(u, Some(0), segs[1..]) == Walk(v, Some(1), segs[2..]);
    assert !Exact(t, cache, path);
  }

  /** After "/a" on an empty tree, the cache takes "a" for a root that does not exist. */
  lemma LeadingSlashPoisonsCache()
    ensures var r := Resolve(Table([], 0), map[], "/a");
            "a" in r.cache && Lookup(r.table.rows, None, ["a"]).None?
  {
    var t, u := Table([], 0), Insert(Table([], 0), "", None);
    SplitOfPiece("a");
    assert "/a"[1..] == "a" && Split("/a") == ["", "a"] && ["", "a"][1..] == ["a"] && ["a"][1..] == [];
    assert Find(t.rows, "", None).None?;
    assert u.rows[1..] == [] && Find(u.rows, "a", Some(0)).None?;
    var v := Insert(u, "a", Some(0));
    assert v.rows[1..] == [Row(1, "a", Some(0), true)] && v.rows[1..][1..] == [];
    assert Find(v.rows[1..], "a", None).None?;
    assert Resolve(t, map[], "/a") == ResolveLoop(u, map["" := 0], Some(0), "", ["a"]);
  }

  lemma SlashHasMore(path: string)
    requires path != "" && path[0] == '/'
    ensures |Split(path)| > 1 && Split(path)[0] == ""
  {
  }

  // ---- The forest the walk grows ----

  /** Keys rise down the table, parents come before children, and no two groups share a name and a parent. */
  predicate Sound(t: Table) {
    && (forall i | 0 <= i < |t.rows| :: t.rows[i].id < t.nextID)
    && (forall i | 0 <= i < |t.rows| :: t.rows[i].parent.Some? ==> t.rows[i].parent.value < t.rows[i].id)
    && (forall i, j | 0 <= i < j < |t.rows| :: t.rows[i].id < t.rows[j].id)
    && (forall i, j | 0 <= i < j < |t.rows| :: (t.rows[i].name, t.rows[i].parent) != (t.rows[j].name, t.rows[j].parent))
  }

  lemma {:induction false} FindIsFirst(rows: seq<Row>, name: string, parent: Option<nat>)
    ensures Find(rows, name, parent).None? <==>
            forall i | 0 <= i < |rows| :: rows[i].name != name || rows[i].parent != parent
    ensures Find(rows, name, parent).Some? ==>
              exists i | 0 <= i < |rows| ::
                && rows[i].id == Find(rows, name, parent).value && rows[i].name == name && rows[i].parent == parent
                && forall j | 0 <= j < i :: rows[j].name != name || rows[j].parent != parent
    decreases |rows|
  {
    if rows != [] {
      if rows[0].name == name && rows[0].parent == parent {
        assert rows[0].id == Find(rows, name, parent).value;
      } else {
        FindIsFirst(rows[1..], name, parent);
        assert forall i | 0 <= i < |rows[1..]| :: rows[1..][i] == rows[i + 1];
        if id :| Find(rows[1..], name, parent) == Some(id) {
          var i :| 0 <= i < |rows[1..]| && rows[1..][i].id == id && rows[1..][i].name == name
                   && rows[1..][i].parent == parent
                   && forall j | 0 <= j < i :: rows[1..][j].name != name || rows[1..][j].parent != parent;
          assert rows[i + 1].id == id;
          assert forall j | 0 <= j < i + 1 :: j > 0 ==> rows[j] == rows[1..][j - 1];
        }
      }
    }
  }

  lemma InsertKeepsSound(t: Table, name: string, parent: Option<nat>)
    requires Sound(t) && Find(t.rows, name, parent).None? && (parent.Some? ==> parent.value < t.nextID)
    ensures Sound(Insert(t, name, parent))
  {
    FindIsFirst(t.rows, name, parent);
  }

  lemma FindBelowNext(t: Table, name: string, parent: Option<nat>)
    requires Sound(t) && Find(t.rows, name, parent).Some?
    ensures Find(t.rows, name, parent).value < t.nextID
  {
    FindIsFirst(t.rows, name, parent);
  }

  /** Whatever the path and whatever the cache holds, as long as its ids were handed out. */
  lemma {:induction false} LoopKeepsSound(t: Table, cache: map<string, nat>, parent: Option<nat>, built: string,
                                          segs: seq<string>)
    requires Sound(t) && (parent.Some? ==> parent.value < t.nextID) && forall p <- cache :: cache[p] < t.nextID
    ensures var r := ResolveLoop(t, cache, parent, built, segs);
            && Sound(r.table) && t.nextID <= r.table.nextID && t.rows <= r.table.rows
            && (r.id.Some? ==> r.id.value < r.table.nextID)
            && (forall p <- r.cache :: r.cache[p] < r.table.nextID)
    decreases |segs|
  {
    if segs != [] {
      var path := Extend(built, segs[0]);
      var found := Find(t.rows, segs[0], parent);
      if path in cache {
        LoopKeepsSound(t, cache, Some(cache[path]), path, segs[1..]);
      } else if found.Some? {
        FindBelowNext(t, segs[0], parent);
        LoopKeepsSound(t, cache[path := found.value], found, path, segs[1..]);
      } else {
        InsertKeepsSound(t, segs[0], parent);
        LoopKeepsSound(Insert(t, segs[0], parent), cache[path := t.nextID], Some(t.nextID), path, segs[1..]);
      }
    }
  }

  /** From this group up through its parents, the names spell the path, last segment first, and end at a root. */
  predicate Spells(rows: seq<Row>, id: nat, segs: seq<string>)
    decreases |segs|
  {
    segs != [] &&
    exists r <- rows ::
      && r.id == id && r.name == segs[|segs| - 1]
      && match r.parent
         case None => |segs| == 1
         case Some(p) => Spells(rows, p, segs[..|segs| - 1])
  }

  lemma {:induction false} LookupEndsInGroup(rows: seq<Row>, start: Option<nat>, segs: seq<string>)
    requires segs != [] && Lookup(rows, start, segs).Some?
    ensures Lookup(rows, start, segs).value.Some?
    decreases |segs|
  {
    if |segs| > 1 {
      LookupEndsInGroup(rows, Find(rows, segs[0], start), segs[1..]);
    }
  }

  lemma {:induction false} LookupGivesAncestry(rows: seq<Row>, segs: seq<string>, id: nat)
    requires segs != [] && Lookup(rows, None, segs) == Some(Some(id))
    ensures Spells(rows, id, segs)
    decreases |segs|
  {
    var front, seg := segs[..|segs| - 1], segs[|segs| - 1];
    assert front + [seg] == segs;
    LookupSplit(rows, None, front, seg);
    var parent := Lookup(rows, None, front).value;
    FindIsFirst(rows, seg, parent);
    var i :| 0 <= i < |rows| && rows[i].id == id && rows[i].name == seg && rows[i].parent == parent;
    assert rows[i] in rows;
    if front != [] {
      LookupEndsInGroup(rows, None, front);
      LookupGivesAncestry(rows, front, parent.value);
    }
  }

  lemma {:induction false} AncestryGivesLookup(t: Table, segs: seq<string>, id: nat)
    requires Sound(t) && Spells(t.rows, id, segs)
    ensures Lookup(t.rows, None, segs) == Some(Some(id))
    decreases |segs|
  {
    var front, seg := segs[..|segs| - 1], segs[|segs| - 1];
    assert front + [seg] == segs;
    LookupSplit(t.rows, None, front, seg);
    var r :| r in t.rows && r.id == id && r.name == seg
             && (match r.parent case None => |segs| == 1 case Some(p) => Spells(t.rows, p, front));
    if r.parent.Some? {
      AncestryGivesLookup(t, front, r.parent.value);
    } else {
      assert front == [];
    }
    FindsIt(t, r);
  }

  lemma FindsIt(t: Table, r: Row)
    requires Sound(t) && r in t.rows
    ensures Find(t.rows, r.name, r.parent) == Some(r.id)
  {
    FindIsFirst(t.rows, r.name, r.parent);
  }

  /** In a sound table a path leads to a group exactly when the group's ancestors spell the path. */
  lemma LookupIsAncestry(t: Table, segs: seq<string>, id: nat)
    requires Sound(t)
    ensures segs != [] && Lookup(t.rows, None, segs) == Some(Some(id)) <==> Spells(t.rows, id, segs)
  {
    if segs != [] && Lookup(t.rows, None, segs) == Some(Some(id)) {
      LookupGivesAncestry(t.rows, segs, id);
    }
    if Spells(t.rows, id, segs) {
      AncestryGivesLookup(t, segs, id);
    }
  }

  /** How many leading segments of the path the tree already has. */
  function Known(rows: seq<Row>, parent: Option<nat>, segs: seq<string>): (n: nat)
    ensures n <= |segs|
    decreases |segs|
  {
    if segs == [] then 0
    else match Find(rows, segs[0], parent)
      case None => 0
      case Some(id) => 1 + Known(rows, Some(id), segs[1..])
  }

  /** A chain of new groups, each under the one before it. */
  function NewChain(next: nat, parent: Option<nat>, segs: seq<string>): seq<Row>
    decreases |segs|
  {
    if segs == [] then []
    else [Row(next, segs[0], parent, true)] + NewChain(next + 1, Some(next), segs[1..])
  }

  lemma LookupCons(rows: seq<Row>, parent: Option<nat>, segs: seq<string>, k: nat)
    requires k < |segs| && Find(rows, segs[0], parent).Some?
    ensures Lookup(rows, parent, segs[..k + 1]) == Lookup(rows, Find(rows, segs[0], parent), segs[1..][..k])
  {
    assert segs[..k + 1][1..] == segs[1..][..k];
  }

  lemma LookupFirstMissing(rows: seq<Row>, parent: Option<nat>, segs: seq<string>)
    requires segs != [] && Find(rows, segs[0], parent).None?
    ensures Lookup(rows, parent, segs[..0]) == Some(parent) && Lookup(rows, parent, segs[..1]).None?
  {
  }

  /** Exactly the segments past the known ones are created, in a chain below the last known group, and nothing else
      changes. */
  lemma {:induction false} WalkCreatesOnlyMissing(t: Table, parent: Option<nat>, segs: seq<string>)
    requires Sound(t) && (parent.Some? ==> parent.value < t.nextID)
    ensures var k := Known(t.rows, parent, segs);
            && Lookup(t.rows, parent, segs[..k]).Some?
            && (k < |segs| ==> Lookup(t.rows, parent, segs[..k + 1]).None?)
            && Walk(t, parent, segs).0
               == Table(t.rows + NewChain(t.nextID, Lookup(t.rows, parent, segs[..k]).value, segs[k..]),
                        t.nextID + |segs| - k)
    decreases |segs|
  {
    if segs == [] {
      assert t.rows + [] == t.rows;
    } else {
      match Find(t.rows, segs[0], parent) {
        case Some(id) =>
          FindBelowNext(t, segs[0], parent);
          WalkCreatesOnlyMissing(t, Some(id), segs[1..]);
          var k := Known(t.rows, Some(id), segs[1..]);
          LookupCons(t.rows, parent, segs, k);
          assert segs[1..][k..] == segs[k + 1..];
          if k + 1 < |segs| {
            LookupCons(t.rows, parent, segs, k + 1);
          }
        case None =>
          InsertKeepsSound(t, segs[0], parent);
          UnderFresh(t, segs[0], parent, segs[1..]);
          LookupFirstMissing(t.rows, parent, segs);
          assert segs[0..] == segs;
      }
    }
  }

  lemma {:induction false} UnderFresh(t: Table, name: string, parent: Option<nat>, segs: seq<string>)
    requires Sound(t) && Find(t.rows, name, parent).None? && (parent.Some? ==> parent.value < t.nextID)
    ensures var u := Insert(t, name, parent);
            Walk(u, Some(t.nextID), segs).0 ==
              Table(u.rows + NewChain(u.nextID, Some(t.nextID), segs), u.nextID + |segs|)
    decreases |segs|
  {
    var u := Insert(t, name, parent);
    if segs != [] {
      InsertKeepsSound(t, name, parent);
      FindIsFirst(u.rows, segs[0], Some(t.nextID));
      UnderFresh(u, segs[0], Some(t.nextID), segs[1..]);
      var rest := NewChain(u.nextID + 1, Some(u.nextID), segs[1..]);
      assert u.rows + ([Row(u.nextID, segs[0], Some(t.nextID), true)] + rest) ==
             Insert(u, segs[0], Some(t.nextID)).rows + rest;
    } else {
      assert u.rows + [] == u.rows;
    }
  }

  // ---- Syncing the image table with the files on disk ----

  datatype SyncFile = SyncFile(name: string, filename: string, size: int, groupPath: string)

  datatype Image = Image(name: string, size: int, group: Option<nat>, enabled: bool, public: bool)

  /** The group of each file in turn, on one cache. */
  function ResolveAll(t: Table, cache: map<string, nat>, files: seq<SyncFile>): (Table, seq<Option<nat>>)
    ensures |ResolveAll(t, cache, files).1| == |files|
    decreases |files|
  {
    if files == [] then (t, [])
    else if files[0].groupPath == "" then
      var rest := ResolveAll(t, cache, files[1..]);
      (rest.0, [None] + rest.1)
    else
      var r := Resolve(t, cache, files[0].groupPath);
      var rest := ResolveAll(r.table, r.cache, files[1..]);
      (rest.0, [r.id] + rest.1)
  }

  /** A new image is enabled and public; an old one takes the file's size, and its group if it has one. */
  function Placed(was: Option<Image>, f: SyncFile, group: Option<nat>): Image {
    match was
    case None => Image(f.name, f.size, group, true, true)
    case Some(i) => i.(size := f.size, group := if group.Some? then group else i.group)
  }

  function At(images: map<string, Image>, filename: string): Option<Image> {
    if filename in images then Some(images[filename]) else None
  }

  function PlaceAll(images: map<string, Image>, files: seq<SyncFile>, groups: seq<Option<nat>>): map<string, Image>
    requires |groups| == |files|
    decreases |files|
  {
    if files == [] then images
    else
      var f := files[0];
      PlaceAll(images[f.filename := Placed(At(images, f.filename), f, groups[0])], files[1..], groups[1..])
  }

  function Sync(t: Table, images: map<string, Image>, files: seq<SyncFile>): (Table, map<string, Image>) {
    var (u, groups) := ResolveAll(t, map[], files);
    (u, PlaceAll(images, files, groups))
  }

  // ---- A second sync finds everything in place ----

  lemma {:induction false} FindInLonger(rows: seq<Row>, more: seq<Row>, name: string, parent: Option<nat>)
    requires rows <= more && Find(rows, name, parent).Some?
    ensures Find(more, name, parent) == Find(rows, name, parent)
    decreases |rows|
  {
    if rows != [] && !(rows[0].name == name && rows[0].parent == parent) {
      FindInLonger(rows[1..], more[1..], name, parent);
    }
  }

  /** On any tree that contains the one it left behind, the loop goes the same way and creates nothing. */
  lemma {:induction false} LoopReplays(t: Table, cache: map<string, nat>, parent: Option<nat>, built: string,
                                       segs: seq<string>, u: Table)
    requires ResolveLoop(t, cache, parent, built, segs).table.rows <= u.rows
    ensures t.rows <= ResolveLoop(t, cache, parent, built, segs).table.rows
    ensures ResolveLoop(u, cache, parent, built, segs) == ResolveLoop(t, cache, parent, built, segs).(table := u)
    decreases |segs|
  {
    if segs != [] {
      var path, seg := Extend(built, segs[0]), segs[0];
      var found := Find(t.rows, seg, parent);
      if path in cache {
        LoopReplays(t, cache, Some(cache[path]), path, segs[1..], u);
      } else if found.Some? {
        LoopReplays(t, cache[path := found.value], found, path, segs[1..], u);
        FindInLonger(t.rows, u.rows, seg, parent);
      } else {
        var v := Insert(t, seg, parent);
        LoopReplays(v, cache[path := t.nextID], Some(t.nextID), path, segs[1..], u);
        FindAfterAppend(t.rows, Row(t.nextID, seg, parent, true), seg, parent);
        FindInLonger(v.rows, u.rows, seg, parent);
      }
    }
  }

  lemma {:induction false} ResolveAllReplays(t: Table, cache: map<string, nat>, files: seq<SyncFile>, u: Table)
    requires ResolveAll(t, cache, files).0.rows <= u.rows
    ensures t.rows <= ResolveAll(t, cache, files).0.rows
    ensures ResolveAll(u, cache, files) == (u, ResolveAll(t, cache, files).1)
    decreases |files|
  {
    if files != [] {
      var path := files[0].groupPath;
      if path == "" {
        ResolveAllReplays(t, cache, files[1..], u);
      } else {
        var r := Resolve(t, cache, path);
        ResolveAllReplays(r.table, r.cache, files[1..], u);
        if path !in cache {
          LoopReplays(t, cache, None, "", Split(path), u);
        }
      }
    }
  }

  /** The group that the last of these files with a group gives this filename. */
  function LastGroup(files: seq<SyncFile>, groups: seq<Option<nat>>, filename: string): Option<nat>
    requires |groups| == |files|
    decreases |files|
  {
    if files == [] then None
    else
      var later := LastGroup(files[1..], groups[1..], filename);
      if later.None? && files[0].filename == filename then groups[0] else later
  }

  function LastFile(files: seq<SyncFile>, filename: string): Option<SyncFile> {
    if files == [] then None
    else
      var later := LastFile(files[1..], filename);
      if later.None? && files[0].filename == filename then Some(files[0]) else later
  }

  function FirstFile(files: seq<SyncFile>, filename: string): Option<SyncFile> {
    if files == [] then None
    else if files[0].filename == filename then Some(files[0])
    else FirstFile(files[1..], filename)
  }

  /** What a sync leaves under one filename: the last size and group given, all else as it was or as first created. */
  function Settled(was: Option<Image>, files: seq<SyncFile>, groups: seq<Option<nat>>, filename: string): Option<Image>
    requires |groups| == |files|
  {
    match (FirstFile(files, filename), LastFile(files, filename))
    case (Some(first), Some(last)) =>
      var group := LastGroup(files, groups, filename);
      (match was
       case Some(i) => Some(i.(size := last.size, group := if group.Some? then group else i.group))
       case None => Some(Image(first.name, last.size, group, true, true)))
    case _ => was
  }

  lemma {:induction false} PlaceAllSettles(images: map<string, Image>, files: seq<SyncFile>, groups: seq<Option<nat>>,
                                           filename: string)
    requires |groups| == |files|
    ensures At(PlaceAll(images, files, groups), filename) == Settled(At(images, filename), files, groups, filename)
    decreases |files|
  {
    if files != [] {
      var f := files[0];
      var next := images[f.filename := Placed(At(images, f.filename), f, groups[0])];
      PlaceAllSettles(next, files[1..], groups[1..], filename);
      FirstAndLast(files[1..], groups[1..], filename);
    }
  }

  lemma {:induction false} FirstAndLast(files: seq<SyncFile>, groups: seq<Option<nat>>, filename: string)
    requires |groups| == |files|
    ensures FirstFile(files, filename).Some? <==> LastFile(files, filename).Some?
    ensures LastFile(files, filename).None? ==> LastGroup(files, groups, filename).None?
    decreases |files|
  {
    if files != [] {
      FirstAndLast(files[1..], groups[1..], filename);
    }
  }

  /** No image goes, none is disabled, hidden or renamed, and only a file's own size and directory reach its image. */
  lemma SyncSettles(t: Table, images: map<string, Image>, files: seq<SyncFile>)
    ensures var (u, after) := Sync(t, images, files);
            && t.rows <= u.rows
            && (forall k :: At(after, k) == Settled(At(images, k), files, ResolveAll(t, map[], files).1, k))
            && (forall k <- images ::
                k in after && after[k] == images[k].(size := after[k].size, group := after[k].group))
  {
    var u := ResolveAll(t, map[], files).0;
    ResolveAllReplays(t, map[], files, u);
    var after := Sync(t, images, files).1;
    forall k ensures At(after, k) == Settled(At(images, k), files, ResolveAll(t, map[], files).1, k) {
      PlaceAllSettles(images, files, ResolveAll(t, map[], files).1, k);
    }
    forall k <- images ensures k in after && after[k] == images[k].(size := after[k].size, group := after[k].group) {
      assert At(after, k) == Settled(At(images, k), files, ResolveAll(t, map[], files).1, k);
    }
  }

  /** A second sync of the same files changes nothing, whatever the files and whatever was there before. */
  lemma SyncTwiceIsOnce(t: Table, images: map<string, Image>, files: seq<SyncFile>)
    ensures var (u, after) := Sync(t, images, files); Sync(u, after, files) == (u, after)
  {
    var (u, groups) := ResolveAll(t, map[], files);
    ResolveAllReplays(t, map[], files, u);
    var after := PlaceAll(images, files, groups);
    var again := PlaceAll(after, files, groups);
    forall k ensures At(again, k) == At(after, k) {
      PlaceAllSettles(images, files, groups, k);
      PlaceAllSettles(after, files, groups, k);
    }
    SameImages(again, after);
  }

  lemma SameImages(a: map<string, Image>, b: map<string, Image>)
    requires forall k :: At(a, k) == At(b, k)
    ensures a == b
  {
    assert forall k :: k in a <==> At(a, k).Some?;
    assert forall k :: k in b <==> At(b, k).Some?;
    assert forall k <- a :: a[k] == At(a, k).value == At(b, k).value;
  }

  /** The directories a scan reports are relative, so none starts with '/'. */
  predicate Relative(files: seq<SyncFile>) {
    forall i | 0 <= i < |files| :: files[i].groupPath != "" ==> files[i].groupPath[0] != '/'
  }

  /** Once the cache is right, a directory gets its group, and keeps it in every later tree. */
  lemma DirectoryIsKept(t: Table, cache: map<string, nat>, path: string, later: Table)
    requires CacheOk(t.rows, cache) && path != "" && path[0] != '/'
    requires Resolve(t, cache, path).table.rows <= later.rows
    ensures var r := Resolve(t, cache, path);
            CacheOk(r.table.rows, r.cache) && r.id.Some? && Lookup(later.rows, None, Split(path)) == Some(r.id)
  {
    var r := Resolve(t, cache, path);
    CacheIsExactIff(path);
    assert Exact(t, cache, path);
    LookupInLonger(r.table.rows, later.rows, None, Split(path));
    LookupEndsInGroup(r.table.rows, None, Split(path));
  }

  predicate InDirectory(rows: seq<Row>, f: SyncFile, group: Option<nat>) {
    if f.groupPath == "" then group.None? else group.Some? && Lookup(rows, None, Split(f.groupPath)) == Some(group)
  }

  /** Each file in a directory is given the group the finished tree has for that directory; the others get none. */
  lemma {:induction false} GroupsAreDirectories(t: Table, cache: map<string, nat>, files: seq<SyncFile>)
    requires Relative(files) && CacheOk(t.rows, cache)
    ensures var (u, groups) := ResolveAll(t, cache, files);
            forall i | 0 <= i < |files| :: InDirectory(u.rows, files[i], groups[i])
    decreases |files|
  {
    if files != [] {
      var path, rest := files[0].groupPath, files[1..];
      assert forall i | 0 <= i < |rest| :: rest[i] == files[i + 1];
      if path == "" {
        GroupsAreDirectories(t, cache, rest);
      } else {
        var r := Resolve(t, cache, path);
        ResolveAllReplays(r.table, r.cache, rest, ResolveAll(r.table, r.cache, rest).0);
        DirectoryIsKept(t, cache, path, ResolveAll(r.table, r.cache, rest).0);
        GroupsAreDirectories(r.table, r.cache, rest);
      }
    }
  }

  lemma {:induction false} LookupInLonger(rows: seq<Row>, more: seq<Row>, start: Option<nat>, segs: seq<string>)
    requires rows <= more && Lookup(rows, start, segs).Some?
    ensures Lookup(more, start, segs) == Lookup(rows, start, segs)
    decreases |segs|
  {
    if segs != [] {
      FindInLonger(rows, more, segs[0], start);
      LookupInLonger(rows, more, Find(rows, segs[0], start), segs[1..]);
    }
  }

  lemma {:induction false} ResolveAllKeepsSound(t: Table, cache: map<string, nat>, files: seq<SyncFile>)
    requires Sound(t) && forall p <- cache :: cache[p] < t.nextID
    ensures var (u, groups) := ResolveAll(t, cache, files);
            Sound(u) && t.nextID <= u.nextID
            && forall i | 0 <= i < |files| :: groups[i].Some? ==> groups[i].value < u.nextID
    decreases |files|
  {
    if files != [] {
      var path := files[0].groupPath;
      if path == "" {
        ResolveAllKeepsSound(t, cache, files[1..]);
      } else {
        LoopKeepsSound(t, cache, None, "", Split(path));
        var r := Resolve(t, cache, path);
        ResolveAllKeepsSound(r.table, r.cache, files[1..]);
      }
    }
  }

  /** A sync of any files grows a sound forest into a sound one. */
  lemma SyncKeepsForest(t: Table, images: map<string, Image>, files: seq<SyncFile>)
    requires Sound(t)
    ensures Sound(Sync(t, images, files).0) && t.rows <= Sync(t, images, files).0.rows
  {
    ResolveAllKeepsSound(t, map[], files);
    SyncSettles(t, images, files);
  }

  // ---- The store ----

  /** The map from paths to ids that one sync shares between its files. */
  class GroupCache {
    var ids: map<string, nat>

    constructor ()
      ensures ids == map[]
    {
      ids := map[];
    }
  }

  class ImageStore {
    var groups: Table
    var images: map<string, Image>

    method CreateGroup(name: string, parent: Option<nat>) returns (id: nat)
      modifies this`groups
      ensures groups == Insert(old(groups), name, parent) && id == old(groups.nextID)
    {
      id := groups.nextID;
      groups := Table(groups.rows + [Row(id, name, parent, true)], id + 1);
    }

    method ResolveGroupPath(path: string, cache: GroupCache) returns (id: Option<nat>)
      modifies this`groups, cache
      ensures Resolved(groups, cache.ids, id) == Resolve(old(groups), old(cache.ids), path)
    {
      if path in cache.ids {
        return Some(cache.ids[path]);
      }
      var segs := Split(path);
      var built := "";
      id := None;
      for i := 0 to |segs|
        invariant ResolveLoop(groups, cache.ids, id, built, segs[i..]) == Resolve(old(groups), old(cache.ids), path)
      {
        var seg := segs[i];
        assert segs[i..][0] == seg && segs[i..][1..] == segs[i + 1..];
        if built == "" {
          built := seg;
        } else {
          built := built + "/" + seg;
        }
        if built in cache.ids {
          id := Some(cache.ids[built]);
        } else {
          var found := Find(groups.rows, seg, id);
          var key: nat;
          if found.Some? {
            key := found.value;
          } else {
            key := CreateGroup(seg, id);
          }
          cache.ids := cache.ids[built := key];
          id := Some(key);
        }
      }
    }

    /** The row for one file: created, or brought up to date. */
    method PlaceImage(f: SyncFile, group: Option<nat>)
      modifies this`images
      ensures images == old(images)[f.filename := Placed(At(old(images), f.filename), f, group)]
    {
      if f.filename !in images {
        images := images[f.filename := Image(f.name, f.size, group, true, true)];
      } else {
        var image := images[f.filename];
        var updated := image;
        if image.size != f.size {
          updated := updated.(size := f.size);
        }
        if group.Some? {
          updated := updated.(group := group);
        }
        if updated != image {
          images := images[f.filename := updated];
        } else {
          assert images[f.filename := image] == images;
        }
      }
    }

    method SyncImages(files: seq<SyncFile>)
      modifies this
      ensures (groups, images) == Sync(old(groups), old(images), files)
    {
      var cache := new GroupCache();
      ghost var (final, ids) := ResolveAll(groups, map[], files);
      for i := 0 to |files|
        invariant ResolveAll(groups, cache.ids, files[i..]) == (final, ids[i..])
        invariant PlaceAll(images, files[i..], ids[i..]) == PlaceAll(old(images), files, ids)
      {
        var f := files[i];
        assert files[i..][0] == f && files[i..][1..] == files[i + 1..];
        assert ids[i..][0] == ids[i] && ids[i..][1..] == ids[i + 1..];
        var group: Option<nat> := None;
        if f.groupPath != "" {
          group := ResolveGroupPath(f.groupPath, cache);
        }
        PlaceImage(f, group);
      }
    }
  }
}
