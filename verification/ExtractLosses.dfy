/** Trees that an empty disk does not get whole. */
module ExtractLosses {
  import opened Models
  import opened Extract
  import opened ExtractFiles
  import opened ExtractDirectories
  import G = Groups

  const EMPTY: Nodes := map[[] := Folder]

  // ---- The items of small trees ----

  lemma FileItem(children: seq<Entry>, dest: Path, i: nat, path: Path)
    requires i < |children| && KeptFile(children[i]) && path == Place(dest, children[i])
    requires i + 1 == |children| || !SameFile(children[i], children[i + 1])
    ensures Items(children, dest, i) ==
            [WriteFile(path, children[i].bytes, Whole(children, children[i].name))] + Items(children, dest, i + 1)
  {
    assert RunEnd(children, i) == i + 1;
    assert children[i..i + 1] == [children[i]] && [children[i]][..0] == [];
    assert Bytes([children[i]]) == children[i].bytes;
  }

  lemma OneFileItems(name: string, bytes: seq<int>, dest: Path, path: Path)
    requires Kept(File(name, bytes)) && path == Place(dest, File(name, bytes))
    ensures Items([File(name, bytes)], dest, 0) == [WriteFile(path, bytes, bytes)]
  {
    var children := [File(name, bytes)];
    FileItem(children, dest, 0, path);
    assert children[..0] == [] && Whole([], name) == [] && Whole(children, name) == bytes;
    assert Items(children, dest, 1) == [];
  }

  lemma CleanPlace(dest: Path, e: Entry)
    requires Clean(e.name) && Kept(e) && G.NoSlash(e.name)
    ensures Place(dest, e) == dest + [e.name]
  {
    SanitisedIsClean(e.name);
    JoinPlain(dest, e.name);
  }

  /** When nothing is in the way, the last item to write has its file on disk. */
  lemma LastStays(nodes: Nodes, children: seq<Entry>, dest: Path, front: seq<Item>, x: Item)
    requires Items(children, dest, 0) == front + [x] && x.WriteFile?
    requires Apart(front + [x]) && Room(nodes, front + [x]) && Housed(nodes, front + [x])
    ensures var after := Unpack(State(nodes, []), children, dest, 0);
            AllDone(after.log) && FileAt(after.nodes, x.path) == Some(x.bytes)
  {
    NothingSkippedIff(nodes, children, dest);
    EachFitsIff(nodes, front + [x]);
    UnpackFollows(State(nodes, []), children, dest, 0);
    assert (front + [x])[..|front|] == front;
  }

  /** On a disk without files, new files directly in the root do not get in each other's way. */
  lemma RootItems(nodes: Nodes, items: seq<Item>)
    requires IsFolder(nodes, []) && forall q <- nodes :: nodes[q].Folder?
    requires forall k | 0 <= k < |items| ::
               if items[k].MakeDir? then items[k].path == []
               else |items[k].path| == 1 && items[k].path !in nodes
    ensures Apart(items) && Room(nodes, items) && Housed(nodes, items)
  {
  }

  /** A file of the tree that is not on disk as it should be. */
  lemma NotAsItShould(nodes: Nodes, children: seq<Entry>, dest: Path, x: Item)
    requires x in Items(children, dest, 0) && x.WriteFile? && FileAt(nodes, x.path) != Some(x.whole)
    ensures !OnDisk(nodes, children, dest, 0)
  {
    OnDiskIffPresent(nodes, children, dest, 0);
  }

  lemma NamePlace(dest: Path, e: Entry, name: string, path: Path)
    requires e.name == name && Clean(name) && name !in ["", ".", ".."] && G.NoSlash(name) && path == dest + [name]
    ensures Kept(e) && Place(dest, e) == path
  {
    CleanPlace(dest, e);
  }

  // ---- Separated extents ----

  lemma ThreeFiles(children: seq<Entry>, dest: Path)
    requires |children| == 3 && KeptFile(children[0]) && KeptFile(children[1]) && KeptFile(children[2])
    requires children[0].name != children[1].name && children[1].name != children[2].name
    ensures Items(children, dest, 0) ==
            [WriteFile(Place(dest, children[0]), children[0].bytes, Whole(children, children[0].name)),
             WriteFile(Place(dest, children[1]), children[1].bytes, Whole(children, children[1].name)),
             WriteFile(Place(dest, children[2]), children[2].bytes, Whole(children, children[2].name))]
  {
    FileItem(children, dest, 0, Place(dest, children[0]));
    FileItem(children, dest, 1, Place(dest, children[1]));
    FileItem(children, dest, 2, Place(dest, children[2]));
    assert Items(children, dest, 3) == [];
  }

  lemma SeparatedEnd(children: seq<Entry>, items: seq<Item>, nodes: Nodes)
    requires nodes == EMPTY && items == Items(children, [], 0) && |items| == 3
    requires items[0].WriteFile? && items[1].WriteFile? && items[2].WriteFile?
    requires items[0].path == ["a"] && items[1].path == ["b"] && items[2].path == ["a"]
    ensures var after := Unpack(State(nodes, []), children, [], 0);
            AllDone(after.log) && FileAt(after.nodes, ["a"]) == Some(items[2].bytes)
  {
    assert items == items[..2] + [items[2]];
    RootItems(nodes, items);
    LastStays(nodes, children, [], items[..2], items[2]);
  }

  /** Extents of one file that are not next to each other overwrite each other. */
  lemma SeparatedExtentsAreLost(x: seq<int>, y: seq<int>, z: seq<int>)
    ensures var after := Unpack(State(EMPTY, []), [File("a", x), File("b", y), File("a", z)], [], 0);
            AllDone(after.log) && FileAt(after.nodes, ["a"]) == Some(z)
  {
    var children := [File("a", x), File("b", y), File("a", z)];
    NamePlace([], children[0], "a", ["a"]);
    NamePlace([], children[1], "b", ["b"]);
    NamePlace([], children[2], "a", ["a"]);
    ThreeFiles(children, []);
    SeparatedEnd(children, Items(children, [], 0), EMPTY);
  }

  // ---- Names that sanitising makes special ----

  lemma SpecialPlace(dest: Path, e: Entry, name: string)
    requires name in [".", ".."] && e.name == name + "\U{01}"
    ensures Place(dest, e) == Move(dest, name) && Kept(e)
  {
    SanitisedIsClean(name);
    SanitisedAppend(name, "\U{01}");
    assert Sanitised("\U{01}") == "";
    assert Sanitised(e.name) == name;
    G.SplitOfPiece(name);
    assert [name][1..] == [] && Resolve(dest, [name]) == Resolve(Move(dest, name), []);
  }

  lemma WholeBesideFolder(file: Entry, dir: Entry)
    requires file.File? && dir.Dir?
    ensures Whole([file, dir], file.name) == file.bytes
  {
    assert [file] + [dir] == [file, dir] && [] + [file] == [file];
    WholeSnoc([], file, file.name);
    WholeSnoc([file], dir, file.name);
  }

  lemma FileAndFolder(children: seq<Entry>, dest: Path, file: Entry, dir: Entry, below: Entry)
    requires children == [file, dir] && KeptFile(file) && KeptDir(dir) && dir.children == [below] && KeptFile(below)
    ensures var folder := Place(dest, dir);
            Items(children, dest, 0) == [WriteFile(Place(dest, file), file.bytes, file.bytes), MakeDir(folder),
                                         WriteFile(Place(folder, below), below.bytes, below.bytes)]
    ensures SingleRuns(children)
  {
    var path, folder := Place(dest, file), Place(dest, dir);
    FileItem(children, dest, 0, path);
    WholeBesideFolder(file, dir);
    OneFolder([dir], dest, dir, below);
    assert Items(children, dest, 2) == [] && Items(children, dest, 1) == DirItems(dir, folder) + [];
  }

  lemma OneFolder(children: seq<Entry>, dest: Path, dir: Entry, below: Entry)
    requires children == [dir] && KeptDir(dir) && dir.children == [below] && KeptFile(below)
    ensures var folder := Place(dest, dir);
            && DirItems(dir, folder) == [MakeDir(folder), WriteFile(Place(folder, below), below.bytes, below.bytes)]
            && Items(children, dest, 0) == DirItems(dir, folder) && SingleRuns(dir.children)
  {
    var folder := Place(dest, dir);
    OneFileItems(below.name, below.bytes, folder, Place(folder, below));
    assert Items(children, dest, 1) == [] && Items(children, dest, 0) == DirItems(dir, folder) + [];
  }

  lemma DotFolderEnd(nodes: Nodes, children: seq<Entry>, items: seq<Item>)
    requires nodes == EMPTY && items == Items(children, [], 0)
    requires items == [WriteFile(["x"], [1], [1]), MakeDir([]), WriteFile(["x"], [2], [2])]
    ensures var after := Unpack(State(nodes, []), children, [], 0);
            AllDone(after.log) && FileAt(after.nodes, ["x"]) == Some([2]) && !OnDisk(after.nodes, children, [], 0)
  {
    assert items == items[..2] + [items[2]];
    RootItems(nodes, items);
    LastStays(nodes, children, [], items[..2], items[2]);
    NotAsItShould(Unpack(State(nodes, []), children, [], 0).nodes, children, [], items[0]);
  }

  /** A folder whose name becomes "." is the folder it lies in: its file replaces the one of the same name there. */
  lemma DotFolderOverwrites()
    ensures var children := [File("x", [1]), Dir(".\U{01}", true, [File("x", [2])])];
            var after := Unpack(State(EMPTY, []), children, [], 0);
            && SingleRuns(children) && AllDone(after.log)
            && FileAt(after.nodes, ["x"]) == Some([2]) && !OnDisk(after.nodes, children, [], 0)
  {
    var file, below := File("x", [1]), File("x", [2]);
    var dir := Dir(".\U{01}", true, [below]);
    SpecialPlace([], dir, ".");
    NamePlace([], file, "x", ["x"]);
    NamePlace([], below, "x", ["x"]);
    FileAndFolder([file, dir], [], file, dir, below);
    DotFolderEnd(EMPTY, [file, dir], Items([file, dir], [], 0));
  }

  lemma DotDotFolderEnd(nodes: Nodes, children: seq<Entry>, items: seq<Item>)
    requires nodes == EMPTY[["d"] := Folder] && items == Items(children, ["d"], 0)
    requires items == [MakeDir([]), WriteFile(["x"], [1], [1])]
    ensures var after := Unpack(State(nodes, []), children, ["d"], 0);
            AllDone(after.log) && FileAt(after.nodes, ["x"]) == Some([1])
  {
    assert items == items[..1] + [items[1]];
    RootItems(nodes, items);
    LastStays(nodes, children, ["d"], items[..1], items[1]);
  }

  /** A folder whose name becomes ".." is the one above: its file goes next to the destination. */
  lemma DotDotFolderEscapes()
    ensures var children := [Dir("..\U{01}", true, [File("x", [1])])];
            var after := Unpack(State(EMPTY[["d"] := Folder], []), children, ["d"], 0);
            AllDone(after.log) && FileAt(after.nodes, ["x"]) == Some([1])
  {
    var below := File("x", [1]);
    var dir := Dir("..\U{01}", true, [below]);
    SpecialPlace(["d"], dir, "..");
    assert Move(["d"], "..") == [];
    NamePlace([], below, "x", ["x"]);
    OneFolder([dir], ["d"], dir, below);
    DotDotFolderEnd(EMPTY[["d"] := Folder], [dir], Items([dir], ["d"], 0));
  }

  lemma UnderscorePlace(e: Entry)
    requires e.name in ["a?", "a*"]
    ensures Kept(e) && Place([], e) == ["a_"]
  {
    SanitisedAppend("a", "?");
    SanitisedAppend("a", "*");
    SanitisedIsClean("a");
    assert Sanitised("?") == "_" && Sanitised("*") == "_";
    assert "a" + "?" == "a?" && "a" + "*" == "a*" && "a" + "_" == "a_";
    JoinPlain([], "a_");
  }

  lemma BlockedEnd(nodes: Nodes, children: seq<Entry>, items: seq<Item>)
    requires nodes == EMPTY && items == Items(children, [], 0)
    requires items == [WriteFile(["a_"], [1], [1]), MakeDir(["a_"]), WriteFile(["a_", "x"], [2], [2])]
    ensures var after := Unpack(State(nodes, []), children, [], 0);
            !AllDone(after.log) && !OnDisk(after.nodes, children, [], 0)
  {
    var start := State(nodes, []);
    assert items[0] in items && items[1] in items && items[2] in items;
    NothingSkippedIff(nodes, children, []);
    UnpackKeepsTree(start, children, [], 0);
    var after := Unpack(start, children, [], 0).nodes;
    OnDiskIffPresent(after, children, [], 0);
    assert items[2].path[..1] == items[0].path;
  }

  /** A file and a folder whose names become one: the folder is skipped with all that is in it. */
  lemma FileBlocksFolder()
    ensures var children := [File("a?", [1]), Dir("a*", true, [File("x", [2])])];
            var after := Unpack(State(EMPTY, []), children, [], 0);
            SingleRuns(children) && !AllDone(after.log) && !OnDisk(after.nodes, children, [], 0)
  {
    var file, below := File("a?", [1]), File("x", [2]);
    var dir := Dir("a*", true, [below]);
    UnderscorePlace(file);
    UnderscorePlace(dir);
    NamePlace(["a_"], below, "x", ["a_", "x"]);
    FileAndFolder([file, dir], [], file, dir, below);
    BlockedEnd(EMPTY, [file, dir], Items([file, dir], [], 0));
  }
}
