/** The unpacking of trees with plain names, told entry by entry. */
module ExtractDirectories {
  import opened Models
  import opened Extract
  import opened ExtractFiles
  import G = Groups

  /** Every kept entry goes to a place of its own name directly in the folder of its directory. */
  predicate Plain(children: seq<Entry>) {
    forall i | 0 <= i < |children| && Kept(children[i]) ::
      && Sanitised(children[i].name) !in ["", ".", ".."] && G.NoSlash(Sanitised(children[i].name))
      && (KeptDir(children[i]) ==> Plain(children[i].children))
  }

  lemma PlainPlace(children: seq<Entry>, dest: Path, i: nat)
    requires Plain(children) && i < |children| && Kept(children[i])
    ensures Place(dest, children[i]) == dest + [Sanitised(children[i].name)]
  {
    JoinPlain(dest, Sanitised(children[i].name));
  }

  lemma JoinPlain(dest: Path, name: string)
    requires name !in ["", ".", ".."] && G.NoSlash(name)
    ensures Join(dest, name) == dest + [name]
  {
    G.SplitOfPiece(name);
    assert [name][1..] == [] && Resolve(dest + [name], []) == dest + [name];
  }

  /** What a file needs of another item: not a folder at its path or below, and no other content under its path. */
  predicate Agrees(x: Item, y: Item)
    requires x.WriteFile?
  {
    if y.WriteFile? then x.path == y.path ==> x.whole == y.whole else !(x.path <= y.path)
  }

  ghost predicate Agree(a: seq<Item>, b: seq<Item>) {
    forall x <- a, y <- b | x.WriteFile? :: Agrees(x, y)
  }

  predicate OneName(e: Entry, f: Entry) {
    Kept(e) && Kept(f) && Sanitised(e.name) == Sanitised(f.name)
  }

  /** Kept files of a agree with the entries of b that have their sanitised name, and so on in their subdirectories. */
  predicate Compatible(a: seq<Entry>, b: seq<Entry>)
    decreases a
  {
    forall i, j | 0 <= i < |a| && 0 <= j < |b| && OneName(a[i], b[j]) ::
      && (a[i].File? ==> b[j].File? && Whole(a, a[i].name) == Whole(b, b[j].name))
      && (KeptDir(a[i]) && KeptDir(b[j]) ==> Compatible(a[i].children, b[j].children))
  }

  /** An item comes from an entry of the directory: it is its folder or file, or from inside it. */
  predicate ComesFrom(children: seq<Entry>, dest: Path, x: Item, k: nat)
    requires k < |children|
  {
    var e := children[k];
    var path := Place(dest, e);
    && Kept(e)
    && if e.Dir? then x in DirItems(e, path)
       else x.WriteFile? && x.path == path && x.whole == Whole(children, e.name)
  }

  lemma {:induction false} ItemComesFrom(children: seq<Entry>, dest: Path, i: nat, x: Item) returns (k: nat)
    requires i <= |children| && x in Items(children, dest, i)
    ensures k < |children| && ComesFrom(children, dest, x, k)
    decreases |children| - i
  {
    if x in Items(children, dest, Next(children, i)) {
      k := ItemComesFrom(children, dest, Next(children, i), x);
    } else {
      k := i;
    }
  }

  /** And each kept entry gives its folder, or a file with its name. */
  lemma EntryGivesItem(children: seq<Entry>, dest: Path, k: nat) returns (x: Item)
    requires k < |children| && Kept(children[k])
    ensures x in Items(children, dest, 0) && x.path == Place(dest, children[k]) && x.MakeDir? == children[k].Dir?
    ensures x.WriteFile? ==> x.whole == Whole(children, children[k].name)
  {
    var e, s := children[k], RunStart(children, k);
    if e.Dir? {
      x := MakeDir(Place(dest, e));
      assert x in DirItems(e, x.path);
      EntryItemsIn(children, dest, 0, k, x);
    } else {
      x := WriteFile(Place(dest, e), Bytes(children[s..RunEnd(children, k)]), Whole(children, e.name));
      EachRunIsOneFile(children, dest, 0, k);
    }
  }

  /** All of a directory's items lie below its folder, in the entry's own place or below. */
  lemma {:induction false} ItemLiesBelow(children: seq<Entry>, dest: Path, x: Item, k: nat)
    requires Plain(children) && k < |children| && ComesFrom(children, dest, x, k)
    ensures dest + [Sanitised(children[k].name)] <= x.path
    decreases children
  {
    var e := children[k];
    PlainPlace(children, dest, k);
    var path := Place(dest, e);
    if e.Dir? && x != MakeDir(path) {
      var m := ItemComesFrom(e.children, path, 0, x);
      ItemLiesBelow(e.children, path, x, m);
      assert path <= path + [Sanitised(e.children[m].name)];
    }
  }

  lemma {:induction false} AgreeIffCompatible(a: seq<Entry>, b: seq<Entry>, dest: Path)
    requires Plain(a) && Plain(b)
    ensures Agree(Items(a, dest, 0), Items(b, dest, 0)) <==> Compatible(a, b)
  {
    if Agree(Items(a, dest, 0), Items(b, dest, 0)) {
      AgreeGivesCompatible(a, b, dest);
    }
    if Compatible(a, b) {
      forall x <- Items(a, dest, 0), y <- Items(b, dest, 0) | x.WriteFile? ensures Agrees(x, y) {
        CompatibleItems(a, b, dest, x, y);
      }
    }
  }

  lemma {:induction false} AgreeGivesCompatible(a: seq<Entry>, b: seq<Entry>, dest: Path)
    requires Plain(a) && Plain(b) && Agree(Items(a, dest, 0), Items(b, dest, 0))
    ensures Compatible(a, b)
    decreases a
  {
    forall i, j | 0 <= i < |a| && 0 <= j < |b| && OneName(a[i], b[j])
      ensures a[i].File? ==> b[j].File? && Whole(a, a[i].name) == Whole(b, b[j].name)
      ensures KeptDir(a[i]) && KeptDir(b[j]) ==> Compatible(a[i].children, b[j].children)
    {
      PlainPlace(a, dest, i);
      PlainPlace(b, dest, j);
      if a[i].File? {
        AgreeGivesFile(a, b, dest, i, j);
      } else if KeptDir(a[i]) && KeptDir(b[j]) {
        AgreeBelow(a, b, dest, i, j);
        AgreeGivesCompatible(a[i].children, b[j].children, Place(dest, a[i]));
      }
    }
  }

  lemma AgreeGivesFile(a: seq<Entry>, b: seq<Entry>, dest: Path, i: nat, j: nat)
    requires Agree(Items(a, dest, 0), Items(b, dest, 0)) && i < |a| && j < |b|
    requires KeptFile(a[i]) && Kept(b[j]) && Place(dest, a[i]) == Place(dest, b[j])
    ensures b[j].File? && Whole(a, a[i].name) == Whole(b, b[j].name)
  {
    var x := EntryGivesItem(a, dest, i);
    var y := EntryGivesItem(b, dest, j);
    AgreeOn(Items(a, dest, 0), Items(b, dest, 0), x, y);
  }

  lemma AgreeOn(p: seq<Item>, q: seq<Item>, x: Item, y: Item)
    requires Agree(p, q) && x in p && y in q && x.WriteFile?
    ensures Agrees(x, y)
  {
  }

  lemma AgreeBelow(a: seq<Entry>, b: seq<Entry>, dest: Path, i: nat, j: nat)
    requires Agree(Items(a, dest, 0), Items(b, dest, 0)) && i < |a| && j < |b|
    requires KeptDir(a[i]) && KeptDir(b[j]) && Place(dest, a[i]) == Place(dest, b[j])
    ensures var path := Place(dest, a[i]); Agree(Items(a[i].children, path, 0), Items(b[j].children, path, 0))
  {
    var path := Place(dest, a[i]);
    forall x <- Items(a[i].children, path, 0), y <- Items(b[j].children, path, 0) | x.WriteFile?
      ensures Agrees(x, y)
    {
      EntryItemsIn(a, dest, 0, i, x);
      EntryItemsIn(b, dest, 0, j, y);
    }
  }

  lemma {:induction false} CompatibleItems(a: seq<Entry>, b: seq<Entry>, dest: Path, x: Item, y: Item)
    requires Plain(a) && Plain(b) && Compatible(a, b) && x.WriteFile?
    requires x in Items(a, dest, 0) && y in Items(b, dest, 0)
    ensures Agrees(x, y)
    decreases a
  {
    var i := ItemComesFrom(a, dest, 0, x);
    var j := ItemComesFrom(b, dest, 0, y);
    var m, n := Sanitised(a[i].name), Sanitised(b[j].name);
    ItemLiesBelow(a, dest, x, i);
    ItemLiesBelow(b, dest, y, j);
    PlainPlace(a, dest, i);
    PlainPlace(b, dest, j);
    if m != n {
      assert x.path[|dest|] == m && y.path[|dest|] == n;
    } else if a[i].Dir? {
      var path := Place(dest, a[i]);
      InsideIsLonger(a, dest, i, x);
      if b[j].Dir? && y != MakeDir(path) {
        CompatibleItems(a[i].children, b[j].children, path, x, y);
      }
    }
  }

  /** A file from inside a directory lies strictly below the directory's folder. */
  lemma InsideIsLonger(children: seq<Entry>, dest: Path, k: nat, x: Item)
    requires Plain(children) && k < |children| && children[k].Dir? && ComesFrom(children, dest, x, k) && x.WriteFile?
    ensures |x.path| > |dest| + 1
  {
    var e := children[k];
    PlainPlace(children, dest, k);
    var m := ItemComesFrom(e.children, Place(dest, e), 0, x);
    ItemLiesBelow(e.children, Place(dest, e), x, m);
  }

  // ---- Into an empty folder ----

  /** A folder with nothing in it. */
  predicate Vacant(nodes: Nodes, dest: Path) {
    && IsFolder(nodes, dest)
    && forall q <- nodes :: (q <= dest ==> nodes[q].Folder?) && (dest <= q ==> q == dest)
  }

  lemma PlainItemsBelow(children: seq<Entry>, dest: Path, x: Item)
    requires Plain(children) && x in Items(children, dest, 0)
    ensures dest <= x.path && |dest| < |x.path|
  {
    var k := ItemComesFrom(children, dest, 0, x);
    ItemLiesBelow(children, dest, x, k);
    assert dest <= dest + [Sanitised(children[k].name)];
  }

  lemma PlainRoom(nodes: Nodes, children: seq<Entry>, dest: Path)
    requires Plain(children) && Vacant(nodes, dest)
    ensures Room(nodes, Items(children, dest, 0))
  {
    forall x <- Items(children, dest, 0) ensures dest <= x.path && |dest| < |x.path| {
      PlainItemsBelow(children, dest, x);
    }
    forall x <- Items(children, dest, 0), q <- nodes | x.MakeDir? && q <= x.path ensures nodes[q].Folder? {
      OneWayUp(q, dest, x.path);
    }
  }

  /** Each file's folder is the destination, or made by an item before it. */
  ghost predicate HousedIn(dest: Path, items: seq<Item>) {
    forall k | 0 <= k < |items| && items[k].WriteFile? ::
      items[k].path != [] && HasHome(dest, items[..k], items[k].path[..|items[k].path| - 1])
  }

  predicate HasHome(dest: Path, before: seq<Item>, up: Path) {
    up == dest || MadeBy(before, up)
  }

  lemma HousedAppend(dest: Path, a: seq<Item>, b: seq<Item>)
    requires HousedIn(dest, a) && HousedIn(dest, b)
    ensures HousedIn(dest, a + b)
  {
    var items := a + b;
    forall k | 0 <= k < |items| && items[k].WriteFile?
      ensures items[k].path != [] && HasHome(dest, items[..k], items[k].path[..|items[k].path| - 1])
    {
      if k < |a| {
        assert items[..k] == a[..k];
      } else {
        assert items[..k] == a + b[..k - |a|];
        MadeAppend(a, b[..k - |a|], items[k].path[..|items[k].path| - 1]);
      }
    }
  }

  lemma MadeAppend(a: seq<Item>, b: seq<Item>, path: Path)
    ensures MadeBy(a + b, path) <==> MadeBy(a, path) || MadeBy(b, path)
  {
    assert forall x :: x in a + b <==> x in a || x in b;
  }

  lemma HousedBelow(dest: Path, path: Path, items: seq<Item>)
    requires HousedIn(path, items)
    ensures HousedIn(dest, [MakeDir(path)] + items)
  {
    var all := [MakeDir(path)] + items;
    forall k | 0 <= k < |all| && all[k].WriteFile?
      ensures all[k].path != [] && HasHome(dest, all[..k], all[k].path[..|all[k].path| - 1])
    {
      var up := all[k].path[..|all[k].path| - 1];
      assert all[..k] == [MakeDir(path)] + items[..k - 1];
      MadeAppend([MakeDir(path)], items[..k - 1], up);
      assert MakeDir(path) in [MakeDir(path)];
    }
  }

  lemma {:induction false} PlainHoused(children: seq<Entry>, dest: Path, i: nat)
    requires Plain(children) && i <= |children|
    ensures HousedIn(dest, Items(children, dest, i))
    decreases children, |children| - i, 1
  {
    if i < |children| {
      EntryHoused(children, dest, i);
      PlainHoused(children, dest, Next(children, i));
      HousedAppend(dest, EntryItems(children, dest, i), Items(children, dest, Next(children, i)));
    }
  }

  lemma {:induction false} EntryHoused(children: seq<Entry>, dest: Path, i: nat)
    requires Plain(children) && i < |children|
    ensures HousedIn(dest, EntryItems(children, dest, i))
    decreases children, |children| - i, 0
  {
    var e := children[i];
    if KeptFile(e) {
      PlainPlace(children, dest, i);
      assert RunItem(children, dest, i).path[..|dest|] == dest;
    } else if Kept(e) {
      var path := Place(dest, e);
      if e.readable {
        PlainHoused(e.children, path, 0);
      }
      HousedBelow(dest, path, if e.readable then Items(e.children, path, 0) else []);
      assert EntryItems(children, dest, i) == DirItems(e, path);
    }
  }

  lemma AgreeIff(items: seq<Item>)
    ensures Agree(items, items) <==> Apart(items) && OneContent(items)
  {
  }

  /** A tree of plain names, unpacked into an empty folder, is complete exactly when its entries are compatible and the
      last run of extents under each path is all of its file, which it is when each file's extents lie together. */
  lemma PlainCompleteIff(nodes: Nodes, children: seq<Entry>, dest: Path)
    requires Plain(children) && Vacant(nodes, dest)
    ensures var after := Unpack(State(nodes, []), children, dest, 0);
            var complete := AllDone(after.log) && OnDisk(after.nodes, children, dest, 0);
            && (complete <==> Compatible(children, children) && LastIsWhole(Items(children, dest, 0)))
            && (SingleRuns(children) ==> (complete <==> Compatible(children, children)))
  {
    var items := Items(children, dest, 0);
    PlainRoom(nodes, children, dest);
    PlainHoused(children, dest, 0);
    forall k | 0 <= k < |items| && items[k].WriteFile? && items[k].path != []
      ensures var up := items[k].path[..|items[k].path| - 1];
              IsFolder(nodes, up) || MadeBy(items[..k], up)
    {
      assert HasHome(dest, items[..k], items[k].path[..|items[k].path| - 1]);
    }
    AgreeIff(items);
    AgreeIffCompatible(children, children, dest);
    CompleteIff(nodes, children, dest);
    if SingleRuns(children) {
      SingleRunsCompleteIff(nodes, children, dest);
    }
  }
}
