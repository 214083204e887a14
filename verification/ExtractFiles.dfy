/** Which files of an unpacked ISO 9660 tree are whole on disk in the end. */
module ExtractFiles {
  import opened Models
  import opened Extract

  predicate KeptFile(e: Entry) {
    Kept(e) && e.File?
  }

  predicate KeptDir(e: Entry) {
    Kept(e) && e.Dir? && e.readable
  }

  function FileAt(nodes: Nodes, path: Path): Option<seq<int>> {
    if path in nodes && nodes[path].Regular? then Some(nodes[path].bytes) else None
  }

  /** Each kept file from entry i on, and in the subdirectories, is on disk with all its extents. */
  predicate OnDisk(nodes: Nodes, children: seq<Entry>, dest: Path, i: nat)
    requires i <= |children|
    decreases children, |children| - i
  {
    i == |children| ||
    var e := children[i];
    && (KeptFile(e) ==> FileAt(nodes, Place(dest, e)) == Some(Whole(children, e.name)))
    && (KeptDir(e) ==> OnDisk(nodes, e.children, Place(dest, e), 0))
    && OnDisk(nodes, children, dest, i + 1)
  }

  predicate Present(nodes: Nodes, items: seq<Item>) {
    forall x <- items | x.WriteFile? :: FileAt(nodes, x.path) == Some(x.whole)
  }

  lemma PresentAppend(nodes: Nodes, a: seq<Item>, b: seq<Item>)
    ensures Present(nodes, a + b) <==> Present(nodes, a) && Present(nodes, b)
  {
    assert forall x :: x in a + b <==> x in a || x in b;
  }

  lemma {:induction false} RunOnDisk(nodes: Nodes, children: seq<Entry>, dest: Path, i: nat, j: nat)
    requires i < j <= |children|
    requires forall k | i <= k < j :: KeptFile(children[k]) && children[k].name == children[i].name
    ensures OnDisk(nodes, children, dest, i) <==>
            && FileAt(nodes, Place(dest, children[i])) == Some(Whole(children, children[i].name))
            && OnDisk(nodes, children, dest, j)
    decreases j - i
  {
    if i + 1 < j {
      RunOnDisk(nodes, children, dest, i + 1, j);
    }
  }

  lemma {:induction false} OnDiskIffPresent(nodes: Nodes, children: seq<Entry>, dest: Path, i: nat)
    requires i <= |children|
    ensures OnDisk(nodes, children, dest, i) <==> Present(nodes, Items(children, dest, i))
    decreases children, |children| - i, 1
  {
    if i < |children| {
      EntryOnDisk(nodes, children, dest, i);
      OnDiskIffPresent(nodes, children, dest, Next(children, i));
      PresentAppend(nodes, EntryItems(children, dest, i), Items(children, dest, Next(children, i)));
    }
  }

  lemma {:induction false} EntryOnDisk(nodes: Nodes, children: seq<Entry>, dest: Path, i: nat)
    requires i < |children|
    ensures OnDisk(nodes, children, dest, i) <==>
            Present(nodes, EntryItems(children, dest, i)) && OnDisk(nodes, children, dest, Next(children, i))
    decreases children, |children| - i, 0
  {
    var e := children[i];
    if KeptFile(e) {
      RunOnDisk(nodes, children, dest, i, RunEnd(children, i));
      assert RunItem(children, dest, i) in EntryItems(children, dest, i);
    } else if Kept(e) {
      var path := Place(dest, e);
      var below := if e.readable then Items(e.children, path, 0) else [];
      if e.readable {
        OnDiskIffPresent(nodes, e.children, path, 0);
      }
      PresentAppend(nodes, [MakeDir(path)], below);
    }
  }

  // ---- What is left of the writes ----

  /** What the last write to a path left there, or what was there before. */
  function Left(nodes: Nodes, log: seq<Event>, path: Path): Option<seq<int>> {
    if log == [] then FileAt(nodes, path)
    else
      var n := |log| - 1;
      match log[n]
      case Done(WriteFile(p, bytes, _)) => if p == path then Some(bytes) else Left(nodes, log[..n], path)
      case _ => Left(nodes, log[..n], path)
  }

  ghost predicate Accounted(nodes: Nodes, s: State) {
    forall path :: FileAt(s.nodes, path) == Left(nodes, s.log, path)
  }

  lemma TryAccounts(nodes: Nodes, s: State, x: Item, lost: seq<int>)
    requires Accounted(nodes, s)
    ensures Accounted(nodes, Try(s, x, lost))
  {
    var t := Try(s, x, lost);
    assert t.log[..|t.log| - 1] == s.log;
  }

  /** No file changes without a write in the log. */
  lemma UnpackAccounts(nodes: Nodes, children: seq<Entry>, dest: Path)
    ensures Accounted(nodes, Unpack(State(nodes, []), children, dest, 0))
  {
    var inv := (s: State) => Accounted(nodes, s);
    forall s, x, lost | inv(s) && x in Items(children, dest, 0) ensures inv(Try(s, x, lost)) {
      TryAccounts(nodes, s, x, lost);
    }
    UnpackKeeps(inv, State(nodes, []), children, dest, 0);
  }

  /** Whatever was skipped, the kept files are all whole on disk exactly when the last file written under the path of
      each, or else what was there before, is all of it. */
  lemma FilesSurviveIff(nodes: Nodes, children: seq<Entry>, dest: Path)
    ensures var after := Unpack(State(nodes, []), children, dest, 0);
            OnDisk(after.nodes, children, dest, 0) <==>
            forall x <- Items(children, dest, 0) | x.WriteFile? :: Left(nodes, after.log, x.path) == Some(x.whole)
  {
    UnpackAccounts(nodes, children, dest);
    OnDiskIffPresent(Unpack(State(nodes, []), children, dest, 0).nodes, children, dest, 0);
  }

  // ---- When nothing is skipped ----

  function DoAll(nodes: Nodes, items: seq<Item>): Nodes {
    if items == [] then nodes else Do(DoAll(nodes, items[..|items| - 1]), items[|items| - 1])
  }

  predicate FitsAt(nodes: Nodes, items: seq<Item>, k: nat)
    requires k < |items|
  {
    Fits(DoAll(nodes, items[..k]), items[k])
  }

  predicate EachFits(nodes: Nodes, items: seq<Item>) {
    forall k | 0 <= k < |items| :: FitsAt(nodes, items, k)
  }

  lemma {:induction false} DoAllAppend(nodes: Nodes, a: seq<Item>, b: seq<Item>)
    ensures DoAll(nodes, a + b) == DoAll(DoAll(nodes, a), b)
    decreases |b|
  {
    if b == [] {
      assert a + b == a;
    } else {
      var n := |b| - 1;
      assert (a + b)[..|a + b| - 1] == a + b[..n];
      DoAllAppend(nodes, a, b[..n]);
    }
  }

  lemma EachFitsAppend(nodes: Nodes, a: seq<Item>, b: seq<Item>)
    ensures EachFits(nodes, a + b) <==> EachFits(nodes, a) && EachFits(DoAll(nodes, a), b)
  {
    forall k | 0 <= k < |a| ensures FitsAt(nodes, a + b, k) <==> FitsAt(nodes, a, k) {
      assert (a + b)[..k] == a[..k];
    }
    forall k | 0 <= k < |b| ensures FitsAt(nodes, a + b, |a| + k) <==> FitsAt(DoAll(nodes, a), b, k) {
      assert (a + b)[..|a| + k] == a + b[..k];
      DoAllAppend(nodes, a, b[..k]);
    }
    if EachFits(nodes, a + b) {
      forall k | 0 <= k < |b| ensures FitsAt(DoAll(nodes, a), b, k) {
        assert FitsAt(nodes, a + b, |a| + k);
      }
    }
    if EachFits(nodes, a) && EachFits(DoAll(nodes, a), b) {
      forall k | 0 <= k < |a + b| ensures FitsAt(nodes, a + b, k) {
        if k >= |a| {
          assert FitsAt(DoAll(nodes, a), b, k - |a|);
        }
      }
    }
  }

  function Dones(items: seq<Item>): seq<Event> {
    seq(|items|, k requires 0 <= k < |items| => Done(items[k]))
  }

  predicate AllDone(log: seq<Event>) {
    forall e <- log :: e.Done?
  }

  /** From s to t the items were done one by one, or one of them was skipped. */
  predicate Follows(s: State, items: seq<Item>, t: State) {
    && s.log <= t.log
    && (EachFits(s.nodes, items) ==> t == State(DoAll(s.nodes, items), s.log + Dones(items)))
    && (!EachFits(s.nodes, items) ==> !AllDone(t.log))
  }

  lemma FollowsNone(s: State)
    ensures Follows(s, [], s)
  {
    assert s.log + Dones([]) == s.log;
  }

  lemma FollowsOne(s: State, x: Item, lost: seq<int>)
    ensures Follows(s, [x], Try(s, x, lost))
  {
    assert [x][..0] == [] && DoAll(s.nodes, []) == s.nodes;
    assert FitsAt(s.nodes, [x], 0) <==> Fits(s.nodes, x);
    assert Dones([x]) == [Done(x)] && DoAll(s.nodes, [x]) == Do(s.nodes, x);
    if !Fits(s.nodes, x) {
      assert Skipped(x, lost) in Try(s, x, lost).log;
    }
  }

  lemma FollowsAppend(s: State, a: seq<Item>, t: State, b: seq<Item>, u: State)
    requires Follows(s, a, t) && t.log <= u.log && (EachFits(s.nodes, a) ==> Follows(t, b, u))
    ensures Follows(s, a + b, u)
  {
    if EachFits(s.nodes, a) {
      FollowsBoth(s, a, t, b, u);
    } else {
      EachFitsAppend(s.nodes, a, b);
      SkipStays(t.log, u.log);
    }
  }

  lemma SkipStays(log: seq<Event>, longer: seq<Event>)
    requires log <= longer && !AllDone(log)
    ensures !AllDone(longer)
  {
    var e :| e in log && !e.Done?;
    assert e in longer;
  }

  lemma FollowsBoth(s: State, a: seq<Item>, t: State, b: seq<Item>, u: State)
    requires Follows(s, a, t) && EachFits(s.nodes, a) && Follows(t, b, u)
    ensures Follows(s, a + b, u)
  {
    EachFitsAppend(s.nodes, a, b);
    DoAllAppend(s.nodes, a, b);
    DonesAppend(s.log, a, b);
  }

  lemma DonesAppend(log: seq<Event>, a: seq<Item>, b: seq<Item>)
    ensures log + Dones(a) + Dones(b) == log + Dones(a + b)
  {
    assert Dones(a + b) == Dones(a) + Dones(b);
  }

  lemma {:induction false} UnpackFollows(s: State, children: seq<Entry>, dest: Path, i: nat)
    requires i <= |children|
    ensures Follows(s, Items(children, dest, i), Unpack(s, children, dest, i))
    decreases children, |children| - i, 1
  {
    if i == |children| {
      FollowsNone(s);
    } else {
      var t, j := UnpackEntry(s, children, dest, i), Next(children, i);
      EntryFollows(s, children, dest, i);
      UnpackFollows(t, children, dest, j);
      FollowsAppend(s, EntryItems(children, dest, i), t, Items(children, dest, j), Unpack(t, children, dest, j));
    }
  }

  lemma {:induction false} EntryFollows(s: State, children: seq<Entry>, dest: Path, i: nat)
    requires i < |children|
    ensures Follows(s, EntryItems(children, dest, i), UnpackEntry(s, children, dest, i))
    decreases children, |children| - i, 0
  {
    var e := children[i];
    if !Kept(e) {
      FollowsNone(s);
    } else if e.File? {
      FollowsOne(s, RunItem(children, dest, i), Bytes(children[i..RunEnd(children, i)]));
    } else {
      var path := Place(dest, e);
      var x := MakeDir(path);
      var t := Try(s, x, EntryBytes(e));
      FollowsOne(s, x, EntryBytes(e));
      assert EachFits(s.nodes, [x]) ==> Fits(s.nodes, x) by {
        assert [x][..0] == [] && (FitsAt(s.nodes, [x], 0) <==> Fits(s.nodes, x));
      }
      if e.readable && Fits(s.nodes, x) {
        UnpackFollows(t, e.children, path, 0);
      } else {
        FollowsNone(t);
      }
      FollowsAppend(s, [x], t, if e.readable then Items(e.children, path, 0) else [], UnpackDir(s, e, path));
    }
  }

  // ---- The same, on the paths ----

  /** No file of the list lies at or above a folder of the list. */
  predicate Apart(items: seq<Item>) {
    forall f <- items, g <- items | f.WriteFile? && g.MakeDir? :: !(f.path <= g.path)
  }

  /** What was on the disk leaves room: no file at or above a folder to make, no folder under the path of a file. */
  predicate Room(nodes: Nodes, items: seq<Item>) {
    && (forall x <- items, q <- nodes | x.MakeDir? && q <= x.path :: nodes[q].Folder?)
    && (forall x <- items | x.WriteFile? :: x.path != [] && !IsFolder(nodes, x.path))
  }

  predicate MadeBy(items: seq<Item>, path: Path) {
    exists x <- items :: x.MakeDir? && path <= x.path
  }

  /** When a file's turn comes, there is a folder to hold it. */
  predicate Housed(nodes: Nodes, items: seq<Item>) {
    forall k | 0 <= k < |items| && items[k].WriteFile? && items[k].path != [] ::
      var up := items[k].path[..|items[k].path| - 1];
      IsFolder(nodes, up) || MadeBy(items[..k], up)
  }

  predicate WrittenBy(items: seq<Item>, path: Path) {
    exists x <- items :: x.WriteFile? && x.path == path
  }

  ghost predicate KindsAre(nodes: Nodes, items: seq<Item>, after: Nodes) {
    && (forall q :: IsFolder(after, q) <==> IsFolder(nodes, q) || MadeBy(items, q))
    && (forall q :: FileAt(after, q).Some? <==> FileAt(nodes, q).Some? || WrittenBy(items, q))
  }

  lemma ByNext(front: seq<Item>, x: Item, path: Path)
    ensures MadeBy(front + [x], path) <==> MadeBy(front, path) || (x.MakeDir? && path <= x.path)
    ensures WrittenBy(front + [x], path) <==> WrittenBy(front, path) || (x.WriteFile? && path == x.path)
  {
    assert forall y :: y in front + [x] <==> y in front || y == x;
  }

  lemma KindsNext(nodes: Nodes, front: seq<Item>, x: Item, after: Nodes)
    requires KindsAre(nodes, front, after) && Fits(after, x)
    ensures KindsAre(nodes, front + [x], Do(after, x))
  {
    forall q ensures IsFolder(Do(after, x), q) <==> IsFolder(nodes, q) || MadeBy(front + [x], q) {
      ByNext(front, x, q);
    }
    forall q ensures FileAt(Do(after, x), q).Some? <==> FileAt(nodes, q).Some? || WrittenBy(front + [x], q) {
      ByNext(front, x, q);
    }
  }

  lemma {:induction false} Kinds(nodes: Nodes, items: seq<Item>, k: nat)
    requires k <= |items| && forall m | 0 <= m < k :: FitsAt(nodes, items, m)
    ensures KindsAre(nodes, items[..k], DoAll(nodes, items[..k]))
    decreases k
  {
    if k > 0 {
      var front := items[..k - 1];
      Kinds(nodes, items, k - 1);
      assert FitsAt(nodes, items, k - 1);
      assert items[..k] == front + [items[k - 1]] && items[..k][..k - 1] == front;
      KindsNext(nodes, front, items[k - 1], DoAll(nodes, front));
    }
  }

  /** What the item after these needs, told by the disk before and the items before. */
  predicate FitsAfter(nodes: Nodes, before: seq<Item>, x: Item) {
    match x
    case MakeDir(path) =>
      && (forall q <- nodes :: q <= path ==> nodes[q].Folder?)
      && (forall y <- before | y.WriteFile? :: !(y.path <= path))
    case WriteFile(path, _, _) =>
      && path != [] && !IsFolder(nodes, path) && !MadeBy(before, path)
      && (IsFolder(nodes, path[..|path| - 1]) || MadeBy(before, path[..|path| - 1]))
  }

  predicate ItsTurn(nodes: Nodes, items: seq<Item>, k: nat)
    requires k < |items|
  {
    FitsAfter(nodes, items[..k], items[k])
  }

  lemma FitsIfAfter(nodes: Nodes, before: seq<Item>, after: Nodes, x: Item)
    requires KindsAre(nodes, before, after)
    ensures Fits(after, x) <==> FitsAfter(nodes, before, x)
  {
    if x.MakeDir? {
      FolderFitsIfAfter(nodes, before, after, x.path);
    }
  }

  lemma FolderFitsIfAfter(nodes: Nodes, before: seq<Item>, after: Nodes, path: Path)
    requires KindsAre(nodes, before, after)
    ensures (forall q <- after :: q <= path ==> after[q].Folder?) <==>
            && (forall q <- nodes :: q <= path ==> nodes[q].Folder?)
            && (forall y <- before | y.WriteFile? :: !(y.path <= path))
  {
    if q :| q in after && q <= path && !after[q].Folder? {
      assert FileAt(after, q).Some?;
    }
    if q :| q in nodes && q <= path && !nodes[q].Folder? {
      assert FileAt(nodes, q).Some? && FileAt(after, q).Some?;
    }
    if y :| y in before && y.WriteFile? && y.path <= path {
      assert WrittenBy(before, y.path) && FileAt(after, y.path).Some?;
    }
  }

  lemma {:induction false} FitsUpTo(nodes: Nodes, items: seq<Item>, k: nat)
    requires k <= |items| && forall m | 0 <= m < k :: ItsTurn(nodes, items, m)
    ensures forall m | 0 <= m < k :: FitsAt(nodes, items, m)
    decreases k
  {
    if k > 0 {
      FitsUpTo(nodes, items, k - 1);
      Kinds(nodes, items, k - 1);
      assert ItsTurn(nodes, items, k - 1);
      FitsIfAfter(nodes, items[..k - 1], DoAll(nodes, items[..k - 1]), items[k - 1]);
      assert FitsAt(nodes, items, k - 1);
    }
  }

  lemma EachTurnIff(nodes: Nodes, items: seq<Item>)
    ensures EachFits(nodes, items) <==> forall k | 0 <= k < |items| :: ItsTurn(nodes, items, k)
  {
    if EachFits(nodes, items) {
      forall k | 0 <= k < |items| ensures ItsTurn(nodes, items, k) {
        Kinds(nodes, items, k);
        assert FitsAt(nodes, items, k);
        FitsIfAfter(nodes, items[..k], DoAll(nodes, items[..k]), items[k]);
      }
    }
    if forall k | 0 <= k < |items| :: ItsTurn(nodes, items, k) {
      FitsUpTo(nodes, items, |items|);
    }
  }

  lemma TurnsApart(nodes: Nodes, items: seq<Item>)
    requires forall k | 0 <= k < |items| :: ItsTurn(nodes, items, k)
    ensures Apart(items)
  {
    forall f <- items, g <- items | f.WriteFile? && g.MakeDir? ensures !(f.path <= g.path) {
      var i, j :| 0 <= i < |items| && 0 <= j < |items| && items[i] == f && items[j] == g;
      assert ItsTurn(nodes, items, i) && ItsTurn(nodes, items, j);
      if i < j {
        assert items[..j][i] == f;
      } else {
        assert items[..i][j] == g;
      }
    }
  }

  lemma TurnsRoom(nodes: Nodes, items: seq<Item>)
    requires forall k | 0 <= k < |items| :: ItsTurn(nodes, items, k)
    ensures Room(nodes, items) && Housed(nodes, items)
  {
    forall x <- items
      ensures if x.WriteFile? then x.path != [] && !IsFolder(nodes, x.path) else FitsAfter(nodes, [], x)
    {
      var i :| 0 <= i < |items| && items[i] == x;
      assert ItsTurn(nodes, items, i);
    }
    forall k | 0 <= k < |items| && items[k].WriteFile? && items[k].path != []
      ensures var up := items[k].path[..|items[k].path| - 1];
              IsFolder(nodes, up) || MadeBy(items[..k], up)
    {
      assert ItsTurn(nodes, items, k);
    }
  }

  /** Each item fits when its turn comes exactly when files and folders are apart, the disk leaves room, and each file
      has a folder to hold it. */
  lemma EachFitsIff(nodes: Nodes, items: seq<Item>)
    ensures EachFits(nodes, items) <==> Apart(items) && Room(nodes, items) && Housed(nodes, items)
  {
    EachTurnIff(nodes, items);
    if forall k | 0 <= k < |items| :: ItsTurn(nodes, items, k) {
      TurnsApart(nodes, items);
      TurnsRoom(nodes, items);
    }
    if Apart(items) && Room(nodes, items) && Housed(nodes, items) {
      forall k | 0 <= k < |items| ensures ItsTurn(nodes, items, k) {
        assert forall x <- items[..k] :: x in items;
        assert items[k] in items;
      }
    }
  }

  // ---- Nothing skipped and everything whole ----

  lemma DonesAreDone(items: seq<Item>)
    ensures AllDone(Dones(items))
  {
  }

  /** Nothing is skipped exactly when no file of the tree goes at or above a folder of it, and the disk leaves room. */
  lemma NothingSkippedIff(nodes: Nodes, children: seq<Entry>, dest: Path)
    ensures var items := Items(children, dest, 0);
            AllDone(Unpack(State(nodes, []), children, dest, 0).log) <==>
            Apart(items) && Room(nodes, items) && Housed(nodes, items)
  {
    var start, items := State(nodes, []), Items(children, dest, 0);
    UnpackFollows(start, children, dest, 0);
    EachFitsIff(nodes, items);
    DonesAreDone(items);
    assert [] + Dones(items) == Dones(items);
  }

  /** Files that end up under one path have the same contents. */
  predicate OneContent(items: seq<Item>) {
    forall x <- items, y <- items | x.WriteFile? && y.WriteFile? && x.path == y.path :: x.whole == y.whole
  }

  predicate Last(items: seq<Item>, k: nat)
    requires k < |items|
  {
    items[k].WriteFile? && forall m | k < m < |items| && items[m].WriteFile? :: items[m].path != items[k].path
  }

  /** The last run written to a path is all there is of its file. */
  predicate LastIsWhole(items: seq<Item>) {
    forall k | 0 <= k < |items| && Last(items, k) :: items[k].bytes == items[k].whole
  }

  /** Of items done one by one, the last to write to a path decides. */
  lemma {:induction false} LeftByLast(nodes: Nodes, items: seq<Item>, path: Path)
    requires WrittenBy(items, path)
    ensures exists k :: 0 <= k < |items| && Last(items, k) && items[k].path == path
                        && Left(nodes, Dones(items), path) == Some(items[k].bytes)
    decreases |items|
  {
    var n := |items| - 1;
    var front, x := items[..n], items[n];
    assert items == front + [x];
    assert Dones(items)[..n] == Dones(front) && Dones(items)[n] == Done(x);
    if x.WriteFile? && x.path == path {
      assert Last(items, n);
    } else {
      ByNext(front, x, path);
      LeftByLast(nodes, front, path);
      var k :| 0 <= k < |front| && Last(front, k) && front[k].path == path
               && Left(nodes, Dones(front), path) == Some(front[k].bytes);
      assert Last(items, k);
    }
  }

  /** Nothing is skipped and every kept file is whole in the end exactly when no file of the tree goes at or above a
      folder of it, the disk leaves room, files under one path have one content, and the last run of extents written to
      each path is all of its file. */
  lemma CompleteIff(nodes: Nodes, children: seq<Entry>, dest: Path)
    ensures var items, after := Items(children, dest, 0), Unpack(State(nodes, []), children, dest, 0);
            AllDone(after.log) && OnDisk(after.nodes, children, dest, 0) <==>
            && Apart(items) && Room(nodes, items) && Housed(nodes, items)
            && OneContent(items) && LastIsWhole(items)
  {
    var start, items := State(nodes, []), Items(children, dest, 0);
    NothingSkippedIff(nodes, children, dest);
    FilesSurviveIff(nodes, children, dest);
    if AllDone(Unpack(start, children, dest, 0).log) {
      UnpackFollows(start, children, dest, 0);
      assert [] + Dones(items) == Dones(items);
      WholeIff(nodes, items);
    }
  }

  lemma WholeIff(nodes: Nodes, items: seq<Item>)
    ensures (forall x <- items | x.WriteFile? :: Left(nodes, Dones(items), x.path) == Some(x.whole)) <==>
            OneContent(items) && LastIsWhole(items)
  {
    forall x <- items | x.WriteFile?
      ensures exists k :: 0 <= k < |items| && Last(items, k) && items[k].path == x.path
                          && Left(nodes, Dones(items), x.path) == Some(items[k].bytes)
    {
      LeftByLast(nodes, items, x.path);
    }
    if OneContent(items) && LastIsWhole(items) {
      forall x <- items | x.WriteFile? ensures Left(nodes, Dones(items), x.path) == Some(x.whole) {
        var k :| 0 <= k < |items| && Last(items, k) && items[k].path == x.path
                 && Left(nodes, Dones(items), x.path) == Some(items[k].bytes);
        assert items[k] in items;
      }
    }
    if forall x <- items | x.WriteFile? :: Left(nodes, Dones(items), x.path) == Some(x.whole) {
      forall k | 0 <= k < |items| && Last(items, k) ensures items[k].bytes == items[k].whole {
        assert items[k] in items;
      }
    }
  }

  // ---- Extents next to each other ----

  /** In each directory of the tree, the extents of each kept file are next to each other. */
  predicate SingleRuns(children: seq<Entry>) {
    && (forall i, j | 0 <= i < j < |children| && KeptFile(children[i]) && KeptFile(children[j]) &&
        children[i].name == children[j].name ::
          RunStart(children, i) == RunStart(children, j))
    && (forall i | 0 <= i < |children| && KeptDir(children[i]) :: SingleRuns(children[i].children))
  }

  lemma WholeSnoc(front: seq<Entry>, last: Entry, name: string)
    ensures Whole(front + [last], name) ==
            Whole(front, name) + (if last.File? && last.name == name then last.bytes else [])
  {
    assert (front + [last])[..|front|] == front;
  }

  lemma {:induction false} WholeAppend(a: seq<Entry>, b: seq<Entry>, name: string)
    ensures Whole(a + b, name) == Whole(a, name) + Whole(b, name)
    decreases |b|
  {
    if b == [] {
      assert a + b == a;
    } else {
      var front, last := b[..|b| - 1], b[|b| - 1];
      var more := if last.File? && last.name == name then last.bytes else [];
      assert a + b == a + front + [last];
      WholeSnoc(a + front, last, name);
      WholeAppend(a, front, name);
      Regroup(Whole(a, name), Whole(front, name), more);
    }
  }

  lemma {:induction false} WholeRun(run: seq<Entry>, name: string)
    requires forall e <- run :: e.File? && e.name == name
    ensures Whole(run, name) == Bytes(run)
    decreases |run|
  {
    if run != [] {
      assert run == run[..|run| - 1] + [run[|run| - 1]];
      WholeRun(run[..|run| - 1], name);
    }
  }

  lemma {:induction false} WholeEmptyIff(children: seq<Entry>, name: string)
    ensures Whole(children, name) == [] <==> forall e <- children :: e.File? && e.name == name ==> e.bytes == []
    decreases |children|
  {
    if children != [] {
      var n := |children| - 1;
      WholeEmptyIff(children[..n], name);
      assert forall e :: e in children <==> e in children[..n] || e == children[n] by {
        assert children == children[..n] + [children[n]];
      }
    }
  }

  /** The run of a kept file is all of the file exactly when its extents outside the run are empty. */
  lemma RunIsWholeIff(children: seq<Entry>, s: nat, e: nat, name: string)
    requires s < e <= |children| && forall k | s <= k < e :: children[k].File? && children[k].name == name
    ensures Whole(children, name) == Whole(children[..s], name) + Bytes(children[s..e]) + Whole(children[e..], name)
    ensures Bytes(children[s..e]) == Whole(children, name) <==>
            Whole(children[..s], name) == [] && Whole(children[e..], name) == []
  {
    assert children == children[..s] + children[s..e] + children[e..];
    WholeAppend(children[..s] + children[s..e], children[e..], name);
    WholeAppend(children[..s], children[s..e], name);
    WholeRun(children[s..e], name);
    var before, run, after := Whole(children[..s], name), Bytes(children[s..e]), Whole(children[e..], name);
    assert [] + run + [] == run;
    if run == before + run + after {
      assert |run| == |before| + |run| + |after|;
    }
  }

  /** With its extents next to each other, the run of a file is all of it. */
  lemma SingleRunIsWhole(children: seq<Entry>, i: nat)
    requires SingleRuns(children) && i < |children| && KeptFile(children[i]) && i == RunStart(children, i)
    ensures Bytes(children[i..RunEnd(children, i)]) == Whole(children, children[i].name)
  {
    var name, j := children[i].name, RunEnd(children, i);
    forall k | 0 <= k < |children| && (k < i || j <= k) ensures !(children[k].File? && children[k].name == name) {
      if j <= k {
        RunBreaks(children, i, k);
      }
      assert RunStart(children, k) != i;
    }
    WholeEmptyIff(children[..i], name);
    WholeEmptyIff(children[j..], name);
    RunIsWholeIff(children, i, j, name);
  }

  /** Past the end of a run, another one starts. */
  lemma {:induction false} RunBreaks(children: seq<Entry>, i: nat, k: nat)
    requires i < |children| && RunEnd(children, i) <= k < |children|
    ensures RunEnd(children, i) <= RunStart(children, k)
    decreases k
  {
    if k > RunEnd(children, i) && SameFile(children[k - 1], children[k]) {
      RunBreaks(children, i, k - 1);
    }
  }

  lemma {:induction false} SingleRunItems(children: seq<Entry>, dest: Path, i: nat, x: Item)
    requires SingleRuns(children) && i <= |children| && x in Items(children, dest, i) && x.WriteFile?
    requires 0 < i < |children| && KeptFile(children[i]) ==> !SameFile(children[i - 1], children[i])
    ensures x.bytes == x.whole
    decreases children, |children| - i
  {
    HereOrLater(children, dest, i, x);
    var e := children[i];
    if x in Items(children, dest, Next(children, i)) {
      SingleRunItems(children, dest, Next(children, i), x);
    } else if KeptFile(e) {
      SingleRunIsWhole(children, i);
    } else {
      FolderOrBelow(e, Place(dest, e), x);
      SingleRunItems(e.children, Place(dest, e), 0, x);
    }
  }

  /** When the extents of each file are next to each other, nothing is skipped and every kept file is whole exactly when
      no file goes at or above a folder, the disk leaves room, and files under one path have one content. */
  lemma SingleRunsCompleteIff(nodes: Nodes, children: seq<Entry>, dest: Path)
    requires SingleRuns(children)
    ensures var items, after := Items(children, dest, 0), Unpack(State(nodes, []), children, dest, 0);
            AllDone(after.log) && OnDisk(after.nodes, children, dest, 0) <==>
            Apart(items) && Room(nodes, items) && Housed(nodes, items) && OneContent(items)
  {
    var items := Items(children, dest, 0);
    CompleteIff(nodes, children, dest);
    forall k | 0 <= k < |items| && Last(items, k) ensures items[k].bytes == items[k].whole {
      SingleRunItems(children, dest, 0, items[k]);
    }
  }

  // ---- One file, its extents anywhere in its directory ----

  /** The root is a folder, and each other path lies in one. */
  predicate Tree(nodes: Nodes) {
    IsFolder(nodes, []) && forall q <- nodes | q != [] :: IsFolder(nodes, q[..|q| - 1])
  }

  lemma TryKeepsTree(s: State, x: Item, lost: seq<int>)
    requires Tree(s.nodes)
    ensures Tree(Try(s, x, lost).nodes)
  {
    var after := Try(s, x, lost).nodes;
    if x.MakeDir? && Fits(s.nodes, x) {
      forall q <- after | q != [] ensures IsFolder(after, q[..|q| - 1]) {
        if q <= x.path {
          assert q[..|q| - 1] <= x.path;
        }
      }
    }
  }

  lemma UnpackKeepsTree(s: State, children: seq<Entry>, dest: Path, i: nat)
    requires i <= |children| && Tree(s.nodes)
    ensures Tree(Unpack(s, children, dest, i).nodes)
  {
    var inv := (t: State) => Tree(t.nodes);
    forall t, x, lost | inv(t) && x in Items(children, dest, i) ensures inv(Try(t, x, lost)) {
      TryKeepsTree(t, x, lost);
    }
    UnpackKeeps(inv, s, children, dest, i);
  }

  lemma EntryKeepsTree(s: State, children: seq<Entry>, dest: Path, i: nat)
    requires i < |children| && Tree(s.nodes)
    ensures Tree(UnpackEntry(s, children, dest, i).nodes)
  {
    var inv := (t: State) => Tree(t.nodes);
    forall t, x, lost | inv(t) && x in EntryItems(children, dest, i) ensures inv(Try(t, x, lost)) {
      TryKeepsTree(t, x, lost);
    }
    EntryKeeps(inv, s, children, dest, i);
  }

  /** The disk when the turn of a run comes. */
  lemma {:induction false} TurnOfRun(s: State, children: seq<Entry>, dest: Path, i: nat, m: nat) returns (t: State)
    requires i <= m < |children| && (m > 0 ==> !SameFile(children[m - 1], children[m])) && Tree(s.nodes)
    ensures Tree(t.nodes) && Unpack(s, children, dest, i) == Unpack(t, children, dest, m)
    decreases m - i
  {
    t := s;
    if i < m {
      RunEndsBy(children, i, m);
      EntryKeepsTree(s, children, dest, i);
      t := TurnOfRun(UnpackEntry(s, children, dest, i), children, dest, Next(children, i), m);
    }
  }

  /** Without a write to a path, what is there stays. */
  lemma UnwrittenStays(s: State, children: seq<Entry>, dest: Path, i: nat, path: Path)
    requires i <= |children| && !WrittenBy(Items(children, dest, i), path)
    ensures FileAt(Unpack(s, children, dest, i).nodes, path) == FileAt(s.nodes, path)
  {
    var inv := (t: State) => FileAt(t.nodes, path) == FileAt(s.nodes, path);
    UnpackKeeps(inv, s, children, dest, i);
  }

  lemma {:induction false} DoneIsLeft(nodes: Nodes, log: seq<Event>, x: Item)
    requires x.WriteFile? && Done(x) in log
    ensures Left(nodes, log, x.path).Some?
    decreases |log|
  {
    var n := |log| - 1;
    assert log == log[..n] + [log[n]];
    if log[n] != Done(x) {
      DoneIsLeft(nodes, log[..n], x);
    }
  }

  /** A run with nothing written to its path later is there exactly when it fits when its turn comes. */
  lemma RunStaysIfFits(t: State, children: seq<Entry>, dest: Path, s: nat)
    requires Tree(t.nodes) && s < |children| && KeptFile(children[s])
    requires !WrittenBy(Items(children, dest, RunEnd(children, s)), Place(dest, children[s]))
    ensures var x, after := RunItem(children, dest, s), Unpack(t, children, dest, s);
            && FileAt(after.nodes, x.path) == (if Fits(t.nodes, x) then Some(x.bytes) else None)
            && (Fits(t.nodes, x) ==> Done(x) in after.log)
  {
    var x, j := RunItem(children, dest, s), RunEnd(children, s);
    var u := UnpackEntry(t, children, dest, s);
    var after := Unpack(u, children, dest, j);
    UnwrittenStays(u, children, dest, j, x.path);
    UnpackFollows(u, children, dest, j);
    if Fits(t.nodes, x) {
      assert u.log[|t.log|] == Done(x) && after.log[|t.log|] == u.log[|t.log|];
    }
  }

  /** The last file written under a path is there, as its last run, exactly when that run is not skipped. */
  lemma LastRunStays(nodes: Nodes, children: seq<Entry>, dest: Path, s: nat)
    requires Tree(nodes) && s < |children| && KeptFile(children[s]) && s == RunStart(children, s)
    requires !WrittenBy(Items(children, dest, RunEnd(children, s)), Place(dest, children[s]))
    ensures var after, x := Unpack(State(nodes, []), children, dest, 0), RunItem(children, dest, s);
            FileAt(after.nodes, x.path) == if Done(x) in after.log then Some(x.bytes) else None
  {
    var start, x := State(nodes, []), RunItem(children, dest, s);
    var t := TurnOfRun(start, children, dest, 0, s);
    RunStaysIfFits(t, children, dest, s);
    var after := Unpack(start, children, dest, 0);
    if Done(x) in after.log {
      UnpackAccounts(nodes, children, dest);
      DoneIsLeft(nodes, after.log, x);
    }
  }

  lemma LastRunIsWholeIff(children: seq<Entry>, dest: Path, s: nat)
    requires s < |children| && KeptFile(children[s]) && s == RunStart(children, s)
    requires !WrittenBy(Items(children, dest, RunEnd(children, s)), Place(dest, children[s]))
    ensures var name := children[s].name;
            Bytes(children[s..RunEnd(children, s)]) == Whole(children, name) <==>
            forall x <- children[..s] :: x.File? && x.name == name ==> x.bytes == []
  {
    var name, e := children[s].name, RunEnd(children, s);
    NoneAfter(children, dest, s);
    WholeEmptyIff(children[..s], name);
    RunIsWholeIff(children, s, e, name);
  }

  lemma NoneAfter(children: seq<Entry>, dest: Path, s: nat)
    requires s < |children| && KeptFile(children[s])
    requires !WrittenBy(Items(children, dest, RunEnd(children, s)), Place(dest, children[s]))
    ensures Whole(children[RunEnd(children, s)..], children[s].name) == []
  {
    var name, e := children[s].name, RunEnd(children, s);
    forall k | e <= k < |children| ensures !(children[k].File? && children[k].name == name) {
      if children[k].File? && children[k].name == name {
        RunBreaks(children, s, k);
        EachRunIsOneFile(children, dest, e, k);
        assert false;
      }
    }
    WholeEmptyIff(children[e..], name);
  }

  /** A kept file whose path nothing later in the directory writes is whole on disk exactly when its last run is not
      skipped and its extents before that run are empty. */
  lemma LastFileSurvivesIff(nodes: Nodes, children: seq<Entry>, dest: Path, k: nat)
    requires Tree(nodes) && k < |children| && KeptFile(children[k])
    requires !WrittenBy(Items(children, dest, RunEnd(children, k)), Place(dest, children[k]))
    ensures var after, s := Unpack(State(nodes, []), children, dest, 0), RunStart(children, k);
            FileAt(after.nodes, Place(dest, children[k])) == Some(Whole(children, children[k].name)) <==>
            && Done(RunItem(children, dest, s)) in after.log
            && forall x <- children[..s] :: x.File? && x.name == children[k].name ==> x.bytes == []
  {
    var s := RunStart(children, k);
    SameRunSameEnd(children, s, k);
    LastRunStays(nodes, children, dest, s);
    LastRunIsWholeIff(children, dest, s);
  }
}
